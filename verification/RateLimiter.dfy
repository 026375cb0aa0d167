/** The sliding-window limiter of pkg/api/server.go: a log of grant times per key, pruned by
  * every request and by a background sweep.  Times and windows are nanoseconds. */
module RateLimiting {

  const SECOND: int := 1_000_000_000
  const RATE_LIMIT_REQUESTS: int := 100
  const RATE_LIMIT_WINDOW: int := 60 * SECOND
  const LOGIN_RATE_LIMIT_REQUESTS: int := 5
  const LOGIN_RATE_LIMIT_WINDOW: int := 15 * 60 * SECOND

  type Log = map<string, seq<int>>

  function Get(log: Log, key: string): seq<int> {
    if key in log then log[key] else []
  }

  /** The times strictly after `cutoff`, in order. */
  function Recent(times: seq<int>, cutoff: int): seq<int> {
    if times == [] then []
    else
      var rest := Recent(times[..|times| - 1], cutoff);
      var last := times[|times| - 1];
      if cutoff < last then rest + [last] else rest
  }

  ghost predicate UpTo(times: seq<int>, bound: int) {
    forall i :: 0 <= i < |times| ==> times[i] <= bound
  }

  lemma {:induction false} RecentUpTo(times: seq<int>, cutoff: int, bound: int)
    requires UpTo(times, bound)
    ensures UpTo(Recent(times, cutoff), bound)
    ensures bound <= cutoff ==> Recent(times, cutoff) == []
  {
    if times != [] {
      RecentUpTo(times[..|times| - 1], cutoff, bound);
    }
  }

  lemma {:induction false} RecentTwice(times: seq<int>, a: int, b: int)
    requires a <= b
    ensures Recent(Recent(times, a), b) == Recent(times, b)
  {
    if times != [] {
      var front, last := times[..|times| - 1], times[|times| - 1];
      RecentTwice(front, a, b);
      if a < last {
        assert (Recent(front, a) + [last])[..|Recent(front, a)|] == Recent(front, a);
      }
    }
  }

  lemma RecentAppend(times: seq<int>, t: int, cutoff: int)
    ensures Recent(times + [t], cutoff) == if cutoff < t then Recent(times, cutoff) + [t] else Recent(times, cutoff)
  {
    assert (times + [t])[..|times|] == times;
  }

  /** One call on the limiter; `now` is the clock it reads. */
  datatype Event =
    | Request(key: string, limit: int, window: int, now: int)
    | Sweep(now: int)
  {
    function Cutoff(): int {
      if Request? then now - window else now - LOGIN_RATE_LIMIT_WINDOW
    }
    predicate Touches(k: string) {
      Sweep? || key == k
    }
  }

  /** A request is granted when fewer than `limit` logged times lie in the window ending now. */
  predicate Granted(log: Log, e: Event) {
    e.Request? && |Recent(Get(log, e.key), e.Cutoff())| < e.limit
  }

  function AfterRequest(log: Log, e: Event): Log
    requires e.Request?
  {
    var recent := Recent(Get(log, e.key), e.Cutoff());
    log[e.key := if Granted(log, e) then recent + [e.now] else recent]
  }

  function AfterSweep(log: Log, cutoff: int): Log {
    map key | key in log && Recent(log[key], cutoff) != [] :: Recent(log[key], cutoff)
  }

  function After(log: Log, e: Event): Log {
    if e.Request? then AfterRequest(log, e) else AfterSweep(log, e.Cutoff())
  }

  class RateLimiter {
    var requests: Log

    constructor ()
      ensures requests == map[]
    {
      requests := map[];
    }

    method Allow(ip: string, limit: int, window: int, now: int) returns (allowed: bool)
      modifies this
      ensures allowed == Granted(old(requests), Request(ip, limit, window, now))
      ensures requests == AfterRequest(old(requests), Request(ip, limit, window, now))
    {
      var cutoff := now - window;
      var recent := PruneOld(Get(requests, ip), cutoff);
      if |recent| >= limit {
        requests := requests[ip := recent];
        return false;
      }
      recent := recent + [now];
      requests := requests[ip := recent];
      return true;
    }

    /** Go visits the map in an unspecified order, and so does this loop. */
    method Cleanup(now: int)
      modifies this
      ensures requests == AfterSweep(old(requests), Sweep(now).Cutoff())
    {
      var cutoff := now - LOGIN_RATE_LIMIT_WINDOW;
      var todo := requests.Keys;
      var before := requests;
      while todo != {}
        invariant todo <= before.Keys
        invariant forall k :: k in before ==>
                    if k in todo then k in requests && requests[k] == before[k]
                    else if Recent(before[k], cutoff) == [] then k !in requests
                    else k in requests && requests[k] == Recent(before[k], cutoff)
        invariant requests.Keys <= before.Keys
        decreases |todo|
      {
        var ip :| ip in todo;
        var recent := PruneOld(requests[ip], cutoff);
        if |recent| == 0 {
          requests := requests - {ip};
        } else {
          requests := requests[ip := recent];
        }
        todo := todo - {ip};
      }
    }
  }

  method PruneOld(times: seq<int>, cutoff: int) returns (recent: seq<int>)
    ensures recent == Recent(times, cutoff)
  {
    recent := [];
    for i := 0 to |times|
      invariant recent == Recent(times[..i], cutoff)
    {
      assert times[..i + 1][..i] == times[..i];
      if times[i] > cutoff {
        recent := recent + [times[i]];
      }
    }
    assert times[..|times|] == times;
  }

  // ---------------------------------------------------------------------------------------
  // Runs of a new limiter

  function Front(events: seq<Event>): seq<Event>
    requires events != []
  {
    events[..|events| - 1]
  }

  function Last(events: seq<Event>): Event
    requires events != []
  {
    events[|events| - 1]
  }

  function LogAfter(events: seq<Event>): Log {
    if events == [] then map[] else After(LogAfter(Front(events)), Last(events))
  }

  /** The answers of the limiter over a run, one for every event; a sweep answers false. */
  function Decisions(events: seq<Event>): (d: seq<bool>)
    ensures |d| == |events|
  {
    if events == [] then [] else Decisions(Front(events)) + [Granted(LogAfter(Front(events)), Last(events))]
  }

  /** The reference limiter forgets nothing: its log only ever grows, by the grants. */
  function FullHistory(events: seq<Event>): Log {
    if events == [] then map[] else Recorded(FullHistory(Front(events)), Last(events))
  }

  function Recorded(history: Log, e: Event): Log {
    if Granted(history, e) then history[e.key := Get(history, e.key) + [e.now]] else history
  }

  function FullDecisions(events: seq<Event>): (d: seq<bool>)
    ensures |d| == |events|
  {
    if events == [] then [] else FullDecisions(Front(events)) + [Granted(FullHistory(Front(events)), Last(events))]
  }

  ghost predicate ClockMonotone(events: seq<Event>) {
    forall i, j :: 0 <= i < j < |events| ==> events[i].now <= events[j].now
  }

  /** Every key is used with one window, none longer than the sweep's. */
  ghost predicate OneWindowPerKey(events: seq<Event>) {
    && (forall i :: 0 <= i < |events| && events[i].Request? ==> events[i].window <= LOGIN_RATE_LIMIT_WINDOW)
    && (forall i, j ::
          0 <= i < |events| && 0 <= j < |events| && events[i].Request? && events[j].Request? &&
          events[i].key == events[j].key ==>
            events[i].window == events[j].window)
  }

  /** Nothing in the run has pruned `key` beyond `cutoff`. */
  ghost predicate NotPruned(events: seq<Event>, key: string, cutoff: int) {
    forall i :: 0 <= i < |events| && events[i].Touches(key) ==> events[i].Cutoff() <= cutoff
  }

  /** No request looks further back than something earlier has already pruned its key. */
  ghost predicate CutoffsAdvance(events: seq<Event>) {
    forall j :: 0 <= j < |events| && events[j].Request? ==> NotPruned(events[..j], events[j].key, events[j].Cutoff())
  }

  lemma GetAfter(log: Log, e: Event, key: string)
    ensures Get(After(log, e), key)
            == if !e.Touches(key) then Get(log, key)
               else if Granted(log, e) then Recent(Get(log, key), e.Cutoff()) + [e.now]
               else Recent(Get(log, key), e.Cutoff())
  {
  }

  /** The pruned log and the full history look the same to everything not yet pruned away. */
  lemma {:induction false} LogAgrees(events: seq<Event>, key: string, cutoff: int)
    requires CutoffsAdvance(events) && NotPruned(events, key, cutoff)
    ensures Recent(Get(LogAfter(events), key), cutoff) == Recent(Get(FullHistory(events), key), cutoff)
  {
    if events != [] {
      var front, e := Front(events), Last(events);
      LogAgrees(front, key, cutoff);
      GetAfter(LogAfter(front), e, key);
      if e.Request? {
        LogAgrees(front, e.key, e.Cutoff());
      }
      if e.Touches(key) {
        RecentTwice(Get(LogAfter(front), key), e.Cutoff(), cutoff);
        RecentAppend(Recent(Get(LogAfter(front), key), e.Cutoff()), e.now, cutoff);
        RecentAppend(Get(FullHistory(front), key), e.now, cutoff);
      }
    }
  }

  /** Pruning and sweeping never change an answer, in whatever way sweeps are interleaved. */
  lemma {:induction false} PruningIsInvisible(events: seq<Event>)
    requires CutoffsAdvance(events)
    ensures Decisions(events) == FullDecisions(events)
  {
    if events != [] {
      var front, e := Front(events), Last(events);
      PruningIsInvisible(front);
      if e.Request? {
        LogAgrees(front, e.key, e.Cutoff());
      }
    }
  }

  /** A limiter whose keys are each used with one window decides every run as if it kept every
    * grant forever. */
  lemma LimiterRefinesFullHistory(events: seq<Event>)
    requires ClockMonotone(events) && OneWindowPerKey(events)
    ensures Decisions(events) == FullDecisions(events)
  {
    forall j | 0 <= j < |events| && events[j].Request?
      ensures NotPruned(events[..j], events[j].key, events[j].Cutoff())
    {
    }
    PruningIsInvisible(events);
  }

  lemma OneMore(events: seq<Event>, e: Event)
    ensures Decisions(events + [e]) == Decisions(events) + [Granted(LogAfter(events), e)]
    ensures FullDecisions(events + [e]) == FullDecisions(events) + [Granted(FullHistory(events), e)]
    ensures LogAfter(events + [e]) == After(LogAfter(events), e)
    ensures FullHistory(events + [e]) == Recorded(FullHistory(events), e)
  {
    assert Front(events + [e]) == events;
  }

  lemma LogsOneMore(events: seq<Event>, e: Event)
    ensures LogAfter(events + [e]) == After(LogAfter(events), e) && FullHistory(events + [e]) == Recorded(FullHistory(events), e)
  {
    assert Front(events + [e]) == events;
  }

  lemma LastDiffers(front: seq<Event>, e: Event)
    requires Granted(LogAfter(front), e) && !Granted(FullHistory(front), e)
    ensures Decisions(front + [e])[|front|] && !FullDecisions(front + [e])[|front|]
  {
    OneMore(front, e);
  }

  lemma FirstGrant(key: string, v: int)
    ensures var e := Request(key, 1, v, 0);
            Get(LogAfter([] + [e]), key) == [0] && Get(FullHistory([] + [e]), key) == [0]
  {
    var e := Request(key, 1, v, 0);
    LogsOneMore([], e);
    GetAfter(map[], e, key);
    assert [] + [0] == [0];
  }

  lemma ShortWindowPrunes(log: Log, key: string, u: int, t: int)
    requires Get(log, key) == [0] && 0 <= t && u <= t
    ensures var e := Request(key, 1, u, t);
            Get(After(log, e), key) == [t] && Get(Recorded(log, e), key) == [0, t]
  {
    var e := Request(key, 1, u, t);
    RecentAppend([], 0, e.Cutoff());
    GetAfter(log, e, key);
    assert [] + [0] == [0] && [] + [t] == [t] && [0] + [t] == [0, t];
  }

  lemma LongWindowDiffers(log: Log, history: Log, key: string, v: int, t: int)
    requires Get(log, key) == [t] && Get(history, key) == [0, t] && 0 <= t < v
    ensures Granted(log, Request(key, 2, v, t)) && !Granted(history, Request(key, 2, v, t))
  {
    var cutoff := t - v;
    RecentAppend([], t, cutoff);
    RecentAppend([], 0, cutoff);
    RecentAppend([0], t, cutoff);
    assert [] + [0] == [0] && [] + [t] == [t] && [0] + [t] == [0, t];
  }

  /** When one key is used with a shorter window and a longer, the shorter prunes a grant that the
    * longer should have counted. */
  lemma MixedWindowsForget(key: string, u: int, v: int)
    requires u < v && 0 < v
    ensures var t := if u < 0 then 0 else u;
            var events := [] + [Request(key, 1, v, 0)] + [Request(key, 1, u, t)] + [Request(key, 2, v, t)];
            ClockMonotone(events) && Decisions(events)[2] && !FullDecisions(events)[2]
  {
    var t := if u < 0 then 0 else u;
    var e0, e1, e2 := Request(key, 1, v, 0), Request(key, 1, u, t), Request(key, 2, v, t);
    FirstGrant(key, v);
    LogsOneMore([] + [e0], e1);
    ShortWindowPrunes(LogAfter([] + [e0]), key, u, t);
    ShortWindowPrunes(FullHistory([] + [e0]), key, u, t);
    LongWindowDiffers(LogAfter([] + [e0] + [e1]), FullHistory([] + [e0] + [e1]), key, v, t);
    LastDiffers([] + [e0] + [e1], e2);
  }

  function Zeros(k: nat): seq<int> {
    seq(k, _ => 0)
  }

  /** So many logins at time 0. */
  function LoginRun(key: string, k: nat): seq<Event> {
    if k == 0 then [] else LoginRun(key, k - 1) + [Request(key, LOGIN_RATE_LIMIT_REQUESTS, LOGIN_RATE_LIMIT_WINDOW, 0)]
  }

  lemma {:induction false} RecentZeros(k: nat, cutoff: int)
    ensures Recent(Zeros(k), cutoff) == if cutoff < 0 then Zeros(k) else []
  {
    if k > 0 {
      RecentZeros(k - 1, cutoff);
      assert Zeros(k) == Zeros(k - 1) + [0];
      RecentAppend(Zeros(k - 1), 0, cutoff);
    }
  }

  lemma NextLogin(log: Log, key: string, k: nat)
    requires k < LOGIN_RATE_LIMIT_REQUESTS && Get(log, key) == Zeros(k)
    ensures var e := Request(key, LOGIN_RATE_LIMIT_REQUESTS, LOGIN_RATE_LIMIT_WINDOW, 0);
            Get(After(log, e), key) == Zeros(k + 1) && Get(Recorded(log, e), key) == Zeros(k + 1)
  {
    var e := Request(key, LOGIN_RATE_LIMIT_REQUESTS, LOGIN_RATE_LIMIT_WINDOW, 0);
    RecentZeros(k, e.Cutoff());
    GetAfter(log, e, key);
    assert Zeros(k + 1) == Zeros(k) + [0];
  }

  lemma {:induction false} LoginTimes(key: string, k: nat)
    ensures |LoginRun(key, k)| == k && forall i :: 0 <= i < k ==> LoginRun(key, k)[i].now == 0
  {
    if k > 0 {
      LoginTimes(key, k - 1);
    }
  }

  lemma OneMoreLogin(front: seq<Event>, key: string, k: nat)
    requires k < LOGIN_RATE_LIMIT_REQUESTS && Get(LogAfter(front), key) == Zeros(k) && Get(FullHistory(front), key) == Zeros(k)
    ensures var events := front + [Request(key, LOGIN_RATE_LIMIT_REQUESTS, LOGIN_RATE_LIMIT_WINDOW, 0)];
            Get(LogAfter(events), key) == Zeros(k + 1) && Get(FullHistory(events), key) == Zeros(k + 1)
  {
    LogsOneMore(front, Request(key, LOGIN_RATE_LIMIT_REQUESTS, LOGIN_RATE_LIMIT_WINDOW, 0));
    NextLogin(LogAfter(front), key, k);
    NextLogin(FullHistory(front), key, k);
  }

  lemma {:induction false} LoginsCounted(key: string, k: nat)
    requires k <= LOGIN_RATE_LIMIT_REQUESTS
    ensures Get(LogAfter(LoginRun(key, k)), key) == Zeros(k) && Get(FullHistory(LoginRun(key, k)), key) == Zeros(k)
  {
    if k > 0 {
      LoginsCounted(key, k - 1);
      OneMoreLogin(LoginRun(key, k - 1), key, k - 1);
    }
  }

  lemma GeneralAfterLogins(log: Log, key: string, t: int)
    requires t == RATE_LIMIT_WINDOW && Get(log, key) == Zeros(5)
    ensures var e := Request(key, RATE_LIMIT_REQUESTS, RATE_LIMIT_WINDOW, t);
            Get(After(log, e), key) == [t] && Get(Recorded(log, e), key) == Zeros(5) + [t]
  {
    var e := Request(key, RATE_LIMIT_REQUESTS, RATE_LIMIT_WINDOW, t);
    RecentZeros(5, e.Cutoff());
    GetAfter(log, e, key);
  }

  lemma LoginAfterGeneral(log: Log, history: Log, key: string, t: int)
    requires t == RATE_LIMIT_WINDOW && Get(log, key) == [t] && Get(history, key) == Zeros(5) + [t]
    ensures var login := Request(key, LOGIN_RATE_LIMIT_REQUESTS, LOGIN_RATE_LIMIT_WINDOW, t);
            Granted(log, login) && !Granted(history, login)
  {
    var cutoff := t - LOGIN_RATE_LIMIT_WINDOW;
    RecentZeros(5, cutoff);
    RecentAppend([], t, cutoff);
    RecentAppend(Zeros(5), t, cutoff);
    assert [] + [t] == [t];
  }

  /** With the server's own limits and windows: five logins, one general request on the same key a
    * minute later, and a sixth login is granted at once. */
  lemma SixthLoginGranted(key: string)
    ensures var t := RATE_LIMIT_WINDOW;
            var events := LoginRun(key, 5) + [Request(key, RATE_LIMIT_REQUESTS, RATE_LIMIT_WINDOW, t)]
                          + [Request(key, LOGIN_RATE_LIMIT_REQUESTS, LOGIN_RATE_LIMIT_WINDOW, t)];
            |events| == 7 && ClockMonotone(events) && Decisions(events)[6] && !FullDecisions(events)[6]
  {
    var t := RATE_LIMIT_WINDOW;
    var e, login := Request(key, RATE_LIMIT_REQUESTS, RATE_LIMIT_WINDOW, t), Request(key, LOGIN_RATE_LIMIT_REQUESTS, LOGIN_RATE_LIMIT_WINDOW, t);
    var five := LoginRun(key, 5);
    LoginTimes(key, 5);
    LoginsCounted(key, 5);
    GeneralAfterLogins(LogAfter(five), key, t);
    GeneralAfterLogins(FullHistory(five), key, t);
    LogsOneMore(five, e);
    LoginAfterGeneral(LogAfter(five + [e]), FullHistory(five + [e]), key, t);
    LastDiffers(five + [e], login);
  }

  /** A window longer than the sweep's loses grants to the sweep. */
  lemma LongWindowForgets(key: string, w: int)
    requires LOGIN_RATE_LIMIT_WINDOW < w
    ensures var t := LOGIN_RATE_LIMIT_WINDOW;
            var events := [] + [Request(key, 1, w, 0)] + [Sweep(t)] + [Request(key, 1, w, t)];
            ClockMonotone(events) && Decisions(events)[2] && !FullDecisions(events)[2]
  {
    var t := LOGIN_RATE_LIMIT_WINDOW;
    var e0, e1, e2 := Request(key, 1, w, 0), Sweep(t), Request(key, 1, w, t);
    FirstGrant(key, w);
    LogsOneMore([] + [e0], e1);
    RecentAppend([], 0, e1.Cutoff());
    RecentAppend([], 0, e2.Cutoff());
    assert [] + [0] == [0];
    GetAfter(LogAfter([] + [e0]), e1, key);
    assert Get(LogAfter([] + [e0] + [e1]), key) == [];
    LastDiffers([] + [e0] + [e1], e2);
  }

  /** One key, under two windows. */
  ghost predicate UsesOnly(events: seq<Event>, key: string, u: int, v: int) {
    forall i :: 0 <= i < |events| && events[i].Request? ==> events[i].key == key && events[i].window in {u, v}
  }

  lemma {:induction false} HistoryIsPast(events: seq<Event>, key: string, now: int)
    requires forall i :: 0 <= i < |events| ==> events[i].now <= now
    ensures UpTo(Get(FullHistory(events), key), now) && UpTo(Get(LogAfter(events), key), now)
  {
    if events != [] {
      var front, e := Front(events), Last(events);
      HistoryIsPast(front, key, now);
      GetAfter(LogAfter(front), e, key);
      RecentUpTo(Get(LogAfter(front), key), e.Cutoff(), now);
    }
  }

  /** An empty window counts nothing, pruned or not. */
  lemma {:induction false} EmptyWindowsAgree(events: seq<Event>, key: string, u: int, v: int)
    requires ClockMonotone(events) && UsesOnly(events, key, u, v) && u <= 0 && v <= 0
    ensures Decisions(events) == FullDecisions(events)
  {
    if events != [] {
      var front, e := Front(events), Last(events);
      EmptyWindowsAgree(front, key, u, v);
      if e.Request? {
        HistoryIsPast(front, key, e.now);
        RecentUpTo(Get(FullHistory(front), key), e.Cutoff(), e.now);
        RecentUpTo(Get(LogAfter(front), key), e.Cutoff(), e.now);
      }
    }
  }

  /** A key used with two windows is always served as by the full history exactly when they are
    * the same, and no longer than the sweep's, or count nothing. */
  lemma WindowsAgreeIff(key: string, u: int, v: int)
    ensures (forall events :: ClockMonotone(events) && UsesOnly(events, key, u, v) ==> Decisions(events) == FullDecisions(events))
            <==> (u <= 0 && v <= 0) || (u == v && u <= LOGIN_RATE_LIMIT_WINDOW)
  {
    if u <= 0 && v <= 0 {
      forall events: seq<Event> | ClockMonotone(events) && UsesOnly(events, key, u, v)
        ensures Decisions(events) == FullDecisions(events)
      {
        EmptyWindowsAgree(events, key, u, v);
      }
    } else if u == v && u <= LOGIN_RATE_LIMIT_WINDOW {
      forall events: seq<Event> | ClockMonotone(events) && UsesOnly(events, key, u, v)
        ensures Decisions(events) == FullDecisions(events)
      {
        LimiterRefinesFullHistory(events);
      }
    } else {
      WindowsDiffer(key, u, v);
    }
  }

  lemma WindowsDiffer(key: string, u: int, v: int)
    requires 0 < u || 0 < v
    requires u != v || LOGIN_RATE_LIMIT_WINDOW < u
    ensures exists events :: ClockMonotone(events) && UsesOnly(events, key, u, v) && Decisions(events) != FullDecisions(events)
  {
    var lo, hi := if u < v then u else v, if u < v then v else u;
    if lo < hi {
      MixedWindowsForget(key, lo, hi);
      var t := if lo < 0 then 0 else lo;
      var events := [] + [Request(key, 1, hi, 0)] + [Request(key, 1, lo, t)] + [Request(key, 2, hi, t)];
      assert UsesOnly(events, key, u, v) && Decisions(events) != FullDecisions(events);
    } else {
      LongWindowForgets(key, u);
      var t := LOGIN_RATE_LIMIT_WINDOW;
      var events := [] + [Request(key, 1, u, 0)] + [Sweep(t)] + [Request(key, 1, u, t)];
      assert UsesOnly(events, key, u, v) && Decisions(events) != FullDecisions(events);
    }
  }

  // ---------------------------------------------------------------------------------------
  // The bound over every window

  /** The times at which `key` was granted in a run. */
  function Grants(events: seq<Event>, key: string): seq<int> {
    if events == [] then []
    else
      var before, e := Grants(Front(events), key), Last(events);
      if Granted(LogAfter(Front(events)), e) && e.key == key then before + [e.now] else before
  }

  /** How many of `times` lie in the half-open interval (a, b]. */
  function CountIn(times: seq<int>, a: int, b: int): nat {
    if times == [] then 0
    else CountIn(times[..|times| - 1], a, b) + (if a < times[|times| - 1] <= b then 1 else 0)
  }

  lemma {:induction false} CountInMonotone(times: seq<int>, a: int, b: int, a': int, b': int)
    requires a' <= a && b <= b'
    ensures CountIn(times, a, b) <= CountIn(times, a', b')
  {
    if times != [] {
      CountInMonotone(times[..|times| - 1], a, b, a', b');
    }
  }

  lemma {:induction false} CountInIsRecent(times: seq<int>, a: int, b: int)
    requires UpTo(times, b)
    ensures CountIn(times, a, b) == |Recent(times, a)|
  {
    if times != [] {
      CountInIsRecent(times[..|times| - 1], a, b);
    }
  }

  lemma {:induction false} CountInSplits(times: seq<int>, a: int, b: int, c: int)
    requires a <= b <= c
    ensures CountIn(times, a, c) == CountIn(times, a, b) + CountIn(times, b, c)
  {
    if times != [] {
      CountInSplits(times[..|times| - 1], a, b, c);
    }
  }

  ghost predicate AtMost(times: seq<int>, window: int, limit: int) {
    forall a, b :: b == a + window ==> CountIn(times, a, b) <= limit
  }

  ghost predicate UsedWith(events: seq<Event>, key: string, limit: int, window: int) {
    forall i :: 0 <= i < |events| && events[i].Request? && events[i].key == key ==>
      events[i].limit == limit && events[i].window == window
  }

  /** The run's log still knows every grant on `key` after `cutoff`. */
  lemma {:induction false} LogRemembers(events: seq<Event>, key: string, cutoff: int)
    requires NotPruned(events, key, cutoff)
    ensures Recent(Get(LogAfter(events), key), cutoff) == Recent(Grants(events, key), cutoff)
  {
    if events != [] {
      var front, e := Front(events), Last(events);
      LogRemembers(front, key, cutoff);
      GetAfter(LogAfter(front), e, key);
      if e.Touches(key) {
        RecentTwice(Get(LogAfter(front), key), e.Cutoff(), cutoff);
        RecentAppend(Recent(Get(LogAfter(front), key), e.Cutoff()), e.now, cutoff);
        RecentAppend(Grants(front, key), e.now, cutoff);
      }
    }
  }

  lemma {:induction false} GrantsArePast(events: seq<Event>, key: string, now: int)
    requires forall i :: 0 <= i < |events| ==> events[i].now <= now
    ensures UpTo(Grants(events, key), now)
  {
    if events != [] {
      GrantsArePast(Front(events), key, now);
    }
  }

  /** One more grant keeps the bound: it was given because the window ending now was not full. */
  lemma GrantKeepsBound(granted: seq<int>, now: int, window: int, limit: int)
    requires AtMost(granted, window, limit)
    requires UpTo(granted, now)
    requires |Recent(granted, now - window)| < limit
    ensures AtMost(granted + [now], window, limit)
  {
    forall a, b | b == a + window
      ensures CountIn(granted + [now], a, b) <= limit
    {
      assert (granted + [now])[..|granted|] == granted;
      if a < now <= b {
        CountInMonotone(granted, a, b, now - window, b);
        CountInIsRecent(granted, now - window, b);
      }
    }
  }

  /** A grant was given because the run so far had not filled the window that ends with it. */
  lemma WindowNotFull(events: seq<Event>, key: string, limit: nat, window: int)
    requires events != [] && ClockMonotone(events) && UsedWith(events, key, limit, window)
    requires window <= LOGIN_RATE_LIMIT_WINDOW
    requires Granted(LogAfter(Front(events)), Last(events)) && Last(events).key == key
    ensures |Recent(Grants(Front(events), key), Last(events).now - window)| < limit
  {
    var now := Last(events).now;
    LogRemembers(Front(events), key, now - window);
  }

  lemma LastGrantBounded(events: seq<Event>, key: string, limit: nat, window: int)
    requires events != [] && ClockMonotone(events) && UsedWith(events, key, limit, window)
    requires window <= LOGIN_RATE_LIMIT_WINDOW
    requires AtMost(Grants(Front(events), key), window, limit)
    requires Granted(LogAfter(Front(events)), Last(events)) && Last(events).key == key
    ensures AtMost(Grants(Front(events), key) + [Last(events).now], window, limit)
  {
    var granted, now := Grants(Front(events), key), Last(events).now;
    WindowNotFull(events, key, limit, window);
    GrantsArePast(Front(events), key, now);
    GrantKeepsBound(granted, now, window, limit);
  }

  lemma {:induction false} EveryWindowBounded(events: seq<Event>, key: string, limit: nat, window: int)
    requires ClockMonotone(events) && UsedWith(events, key, limit, window)
    requires window <= LOGIN_RATE_LIMIT_WINDOW
    ensures AtMost(Grants(events, key), window, limit)
  {
    if events != [] {
      var front, e := Front(events), Last(events);
      EveryWindowBounded(front, key, limit, window);
      if Granted(LogAfter(front), e) && e.key == key {
        LastGrantBounded(events, key, limit, window);
      }
    }
  }

  lemma CutoffIsCount(events: seq<Event>, e: Event)
    requires e.Request? && ClockMonotone(events + [e]) && OneWindowPerKey(events + [e])
    ensures |Recent(Get(LogAfter(events), e.key), e.now - e.window)| == CountIn(Grants(events, e.key), e.now - e.window, e.now)
  {
    var all := events + [e];
    forall i | 0 <= i < |events| ensures events[i].now <= e.now && (events[i].Touches(e.key) ==> events[i].Cutoff() <= e.now - e.window) {
      assert all[i] == events[i] && all[|events|] == e;
    }
    LogRemembers(events, e.key, e.now - e.window);
    GrantsArePast(events, e.key, e.now);
    CountInIsRecent(Grants(events, e.key), e.now - e.window, e.now);
  }

  lemma GrantedOn(log: Log, e: Event)
    requires e.Request?
    ensures Granted(log, e) <==> |Recent(Get(log, e.key), e.now - e.window)| < e.limit
  {
  }

  /** A request is granted exactly when fewer than its limit were granted to its key within the
    * window that ends with it: not too seldom, and not too often. */
  lemma GrantedIff(events: seq<Event>, e: Event)
    requires e.Request? && ClockMonotone(events + [e]) && OneWindowPerKey(events + [e])
    ensures Decisions(events + [e])[|events|] <==> CountIn(Grants(events, e.key), e.now - e.window, e.now) < e.limit
  {
    CutoffIsCount(events, e);
    GrantedOn(LogAfter(events), e);
  }

  /** The grants on a key are the times of its requests that the decisions let through. */
  lemma GrantsAreDecisions(events: seq<Event>, e: Event, key: string)
    ensures Grants(events + [e], key)
            == if e.Request? && e.key == key && Decisions(events + [e])[|events|] then Grants(events, key) + [e.now] else Grants(events, key)
  {
    assert Front(events + [e]) == events;
  }

  /** 100 requests a minute, 5 logins in a quarter of an hour. */
  lemma ServerLimits()
    ensures RATE_LIMIT_REQUESTS == 100 && RATE_LIMIT_WINDOW == 60_000_000_000
    ensures LOGIN_RATE_LIMIT_REQUESTS == 5 && LOGIN_RATE_LIMIT_WINDOW == 900_000_000_000
  {
  }

  /** A request as withRateLimit makes it is served exactly while fewer than 100 were within a
    * minute, a login as withLoginRateLimit makes it while fewer than 5 were within a quarter of an
    * hour. */
  lemma ServedIff(events: seq<Event>, e: Event)
    requires e.Request? && ClockMonotone(events + [e]) && OneWindowPerKey(events + [e])
    ensures e.limit == RATE_LIMIT_REQUESTS && e.window == RATE_LIMIT_WINDOW ==>
              (Decisions(events + [e])[|events|] <==> CountIn(Grants(events, e.key), e.now - 60_000_000_000, e.now) < 100)
    ensures e.limit == LOGIN_RATE_LIMIT_REQUESTS && e.window == LOGIN_RATE_LIMIT_WINDOW ==>
              (Decisions(events + [e])[|events|] <==> CountIn(Grants(events, e.key), e.now - 900_000_000_000, e.now) < 5)
  {
    ServerLimits();
    GrantedIff(events, e);
  }

  lemma {:induction false} RecentAre(times: seq<int>, cutoff: int)
    ensures forall t :: t in Recent(times, cutoff) <==> t in times && t > cutoff
  {
    if times != [] {
      var front, last := times[..|times| - 1], times[|times| - 1];
      RecentAre(front, cutoff);
      assert times == front + [last];
    }
  }

  /** A cleanup keeps exactly the times of the last quarter of an hour, and forgets a key that has
    * none. */
  lemma SweepKeeps(log: Log, now: int, key: string)
    ensures forall t :: t in Get(AfterSweep(log, Sweep(now).Cutoff()), key) <==> t in Get(log, key) && t > now - 900_000_000_000
    ensures key in AfterSweep(log, Sweep(now).Cutoff()) <==> exists t :: t in Get(log, key) && t > now - 900_000_000_000
  {
    var kept := Recent(Get(log, key), Sweep(now).Cutoff());
    RecentAre(Get(log, key), Sweep(now).Cutoff());
    if kept != [] {
      assert kept[0] in kept;
    }
  }

  /** In every run, a key always used with one limit and window gets at most k*limit grants in
    * any interval (a, a + k*window]. */
  lemma {:induction false} RateBound(events: seq<Event>, key: string, limit: nat, window: nat, a: int, k: nat)
    requires ClockMonotone(events) && UsedWith(events, key, limit, window)
    requires window <= LOGIN_RATE_LIMIT_WINDOW
    ensures CountIn(Grants(events, key), a, a + k * window) <= k * limit
    decreases k
  {
    var grants := Grants(events, key);
    if k == 0 {
      CountInEmpty(grants, a);
    } else {
      RateBound(events, key, limit, window, a, k - 1);
      var b := a + (k - 1) * window;
      assert a + k * window == b + window && 0 <= (k - 1) * window;
      CountInSplits(grants, a, b, b + window);
      EveryWindowBounded(events, key, limit, window);
      assert k * limit == (k - 1) * limit + limit;
    }
  }

  lemma {:induction false} CountInEmpty(times: seq<int>, a: int)
    ensures CountIn(times, a, a) == 0
  {
    if times != [] {
      CountInEmpty(times[..|times| - 1], a);
    }
  }

  /** What the two middlewares promise: 100 requests a minute, 5 logins in a quarter of an hour. */
  lemma ServerBounds(events: seq<Event>, key: string, a: int)
    requires ClockMonotone(events)
    ensures UsedWith(events, key, RATE_LIMIT_REQUESTS, RATE_LIMIT_WINDOW) ==>
              CountIn(Grants(events, key), a, a + RATE_LIMIT_WINDOW) <= 100
    ensures UsedWith(events, key, LOGIN_RATE_LIMIT_REQUESTS, LOGIN_RATE_LIMIT_WINDOW) ==>
              CountIn(Grants(events, key), a, a + LOGIN_RATE_LIMIT_WINDOW) <= 5
  {
    if UsedWith(events, key, RATE_LIMIT_REQUESTS, RATE_LIMIT_WINDOW) {
      EveryWindowBounded(events, key, RATE_LIMIT_REQUESTS, RATE_LIMIT_WINDOW);
    }
    if UsedWith(events, key, LOGIN_RATE_LIMIT_REQUESTS, LOGIN_RATE_LIMIT_WINDOW) {
      EveryWindowBounded(events, key, LOGIN_RATE_LIMIT_REQUESTS, LOGIN_RATE_LIMIT_WINDOW);
    }
  }

  // ---------------------------------------------------------------------------------------
  // Denials

  function Without<T>(s: seq<T>, i: nat): seq<T>
    requires i < |s|
  {
    s[..i] + s[i + 1..]
  }

  lemma WithoutFromFront<T>(front: seq<T>, last: T, i: nat)
    requires i <= |front|
    ensures Without(front + [last], i) == if i == |front| then front else Without(front, i) + [last]
  {
  }

  lemma {:induction false} StrikeDenied(events: seq<Event>, i: nat)
    requires i < |events| && !FullDecisions(events)[i]
    ensures FullHistory(Without(events, i)) == FullHistory(events)
    ensures FullDecisions(Without(events, i)) == Without(FullDecisions(events), i)
  {
    var front, e := Front(events), Last(events);
    assert events == front + [e];
    WithoutFromFront(front, e, i);
    WithoutFromFront(FullDecisions(front), Granted(FullHistory(front), e), i);
    if i < |front| {
      StrikeDenied(front, i);
      assert Front(Without(front, i) + [e]) == Without(front, i);
    }
  }

  /** A denial never extends the block: a denied request can be struck from a run without
    * changing any other answer. */
  lemma {:induction false} DenialIsInvisible(events: seq<Event>, i: nat)
    requires ClockMonotone(events) && OneWindowPerKey(events)
    requires i < |events| && !Decisions(events)[i]
    ensures Decisions(Without(events, i)) == Without(Decisions(events), i)
  {
    LimiterRefinesFullHistory(events);
    LimiterRefinesFullHistory(Without(events, i));
    StrikeDenied(events, i);
  }

  lemma {:induction false} LogHoldsOnlyGrants(events: seq<Event>, key: string, bound: int)
    requires UpTo(Grants(events, key), bound)
    ensures UpTo(Get(LogAfter(events), key), bound)
  {
    if events != [] {
      var front, e := Front(events), Last(events);
      GetAfter(LogAfter(front), e, key);
      var hit := Granted(LogAfter(front), e) && e.key == key;
      GrantsGrow(Grants(front, key), e.now, hit, bound);
      LogHoldsOnlyGrants(front, key, bound);
      RecentUpTo(Get(LogAfter(front), key), e.Cutoff(), bound);
    }
  }

  lemma GrantsGrow(before: seq<int>, now: int, hit: bool, bound: int)
    requires UpTo(if hit then before + [now] else before, bound)
    ensures UpTo(before, bound) && (hit ==> now <= bound)
  {
    assert hit ==> (before + [now])[|before|] == now;
    assert hit ==> forall i :: 0 <= i < |before| ==> (before + [now])[i] == before[i];
  }

  /** A caller refused at `denied`, however often it has asked since, is served again by a
    * request one window later, when nothing was granted to it in between. */
  lemma ServedAfterOneWindow(events: seq<Event>, key: string, limit: int, window: int, denied: int)
    requires limit > 0
    requires UpTo(Grants(events, key), denied)
    ensures Decisions(events + [Request(key, limit, window, denied + window)])[|events|]
  {
    var e := Request(key, limit, window, denied + window);
    LogHoldsOnlyGrants(events, key, denied);
    IdleKeyServed(LogAfter(events), e);
  }

  lemma IdleKeyServed(log: Log, e: Event)
    requires e.Request? && e.limit > 0 && UpTo(Get(log, e.key), e.Cutoff())
    ensures Granted(log, e)
  {
    RecentUpTo(Get(log, e.key), e.Cutoff(), e.Cutoff());
  }

}
