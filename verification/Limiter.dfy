/** The sliding-window rate limiter: trimmed queues that answer exactly as a full history of
    acceptances would. */
module Limiter {
  import opened Order

  datatype Config = Config(
    windowSeconds: real, sourceWrites: int, globalWrites: int,
    readWindowSeconds: real, sourceReads: int, globalReads: int)
  {
    function Window(write: bool): real { if write then windowSeconds else readWindowSeconds }
    function SourceLimit(write: bool): int { if write then sourceWrites else sourceReads }
    function GlobalLimit(write: bool): int { if write then globalWrites else globalReads }
  }

  /** One accepted request. */
  datatype Acceptance = Acceptance(source: string, write: bool, at: real)

  // ---------------------------------------------------------------- the full-history specification

  /** When requests of one kind were accepted, from every source. */
  function Times(h: seq<Acceptance>, write: bool): seq<real> {
    if h == [] then []
    else
      var front, last := Times(h[..|h| - 1], write), h[|h| - 1];
      if last.write == write then front + [last.at] else front
  }

  /** When requests of one kind were accepted from one source. */
  function TimesOf(h: seq<Acceptance>, write: bool, source: string): seq<real> {
    if h == [] then []
    else
      var front, last := TimesOf(h[..|h| - 1], write, source), h[|h| - 1];
      if last.write == write && last.source == source then front + [last.at] else front
  }

  /** How many of the times lie in the half-open window `(lo, hi]`. */
  function CountIn(ts: seq<real>, lo: real, hi: real): nat {
    if ts == [] then 0
    else CountIn(ts[..|ts| - 1], lo, hi) + if lo < ts[|ts| - 1] <= hi then 1 else 0
  }

  /** The specification of `allow`: both counts over the last window are below their limits. */
  predicate Admits(c: Config, h: seq<Acceptance>, source: string, write: bool, now: real) {
    var w := c.Window(write);
    && CountIn(TimesOf(h, write, source), now - w, now) < c.SourceLimit(write)
    && CountIn(Times(h, write), now - w, now) < c.GlobalLimit(write)
  }

  /** A history that repeated calls of `allow` on a non-decreasing clock can leave behind. */
  ghost predicate Admissible(c: Config, h: seq<Acceptance>) {
    h != [] ==>
      var front, last := h[..|h| - 1], h[|h| - 1];
      && Admissible(c, front) && Admits(c, front, last.source, last.write, last.at)
      && forall i :: 0 <= i < |front| ==> front[i].at <= last.at
  }

  // ---------------------------------------------------------------- what a history guarantees

  ghost predicate AtMost(ts: seq<real>, bound: real) {
    forall i :: 0 <= i < |ts| ==> ts[i] <= bound
  }

  lemma {:induction false} TimesBounded(h: seq<Acceptance>, write: bool, source: string, bound: real)
    requires forall i :: 0 <= i < |h| ==> h[i].at <= bound
    ensures AtMost(Times(h, write), bound) && AtMost(TimesOf(h, write, source), bound)
  {
    if h != [] { TimesBounded(h[..|h| - 1], write, source, bound); }
  }

  /** Times that end by `now` are counted at least as often by a window reaching back further. */
  lemma {:induction false} CountWider(ts: seq<real>, lo: real, hi: real, lo': real, now: real)
    requires lo' <= lo && AtMost(ts, now)
    ensures CountIn(ts, lo, hi) <= CountIn(ts, lo', now)
  {
    if ts != [] { CountWider(ts[..|ts| - 1], lo, hi, lo', now); }
  }

  lemma CountAppend(ts: seq<real>, t: real, lo: real, hi: real)
    ensures CountIn(ts + [t], lo, hi) == CountIn(ts, lo, hi) + if lo < t <= hi then 1 else 0
  {
    assert (ts + [t])[..|ts|] == ts;
  }

  /** The window of length `w` ending at `t` holds no more than `limit` of the times. */
  predicate WithinLimit(ts: seq<real>, limit: int, w: real, t: real) {
    CountIn(ts, t - w, t) <= limit || CountIn(ts, t - w, t) == 0
  }

  /** One more acceptance, admitted by its own window, keeps every window within the limit. */
  lemma WindowKept(ts: seq<real>, at: real, limit: int, w: real, t: real)
    requires AtMost(ts, at) && CountIn(ts, at - w, at) < limit
    requires WithinLimit(ts, limit, w, t)
    ensures WithinLimit(ts + [at], limit, w, t)
  {
    CountAppend(ts, at, t - w, t);
    if t - w < at <= t { CountWider(ts, t - w, t, at - w, at); }
  }

  /** However the calls fell, no window of the configured length ever holds more acceptances
      than the limit allows, for any one source or for all of them together. */
  lemma {:induction false} NoWindowExceedsLimit(c: Config, h: seq<Acceptance>, write: bool, source: string, t: real)
    requires Admissible(c, h)
    ensures WithinLimit(TimesOf(h, write, source), c.SourceLimit(write), c.Window(write), t)
    ensures WithinLimit(Times(h, write), c.GlobalLimit(write), c.Window(write), t)
  {
    if h != [] {
      hide CountIn, AtMost, WithinLimit;
      var front, last, w := h[..|h| - 1], h[|h| - 1], c.Window(write);
      NoWindowExceedsLimit(c, front, write, source, t);
      TimesBounded(front, write, source, last.at);
      if last.write == write {
        WindowKept(Times(front, write), last.at, c.GlobalLimit(write), w, t);
        if last.source == source {
          WindowKept(TimesOf(front, write, source), last.at, c.SourceLimit(write), w, t);
        }
      }
    }
  }

  /** The accepted requests of one kind in the half-open window `(lo, hi]`, from one source or from all. */
  function Within(h: seq<Acceptance>, write: bool, source: Option<string>, lo: real, hi: real): set<int> {
    set i | 0 <= i < |h| && Falls(h[i], write, source, lo, hi)
  }

  predicate Falls(a: Acceptance, write: bool, source: Option<string>, lo: real, hi: real) {
    a.write == write && source in {None, Some(a.source)} && lo < a.at <= hi
  }

  lemma {:induction false} CountsAre(h: seq<Acceptance>, write: bool, source: string, lo: real, hi: real)
    ensures CountIn(TimesOf(h, write, source), lo, hi) == |Within(h, write, Some(source), lo, hi)|
    ensures CountIn(Times(h, write), lo, hi) == |Within(h, write, None, lo, hi)|
  {
    if h != [] {
      var n := |h| - 1;
      CountsAre(h[..n], write, source, lo, hi);
      WithinGrows(h, write, None, lo, hi);
      WithinGrows(h, write, Some(source), lo, hi);
      CountAppend(Times(h[..n], write), h[n].at, lo, hi);
      CountAppend(TimesOf(h[..n], write, source), h[n].at, lo, hi);
      hide CountIn, Within;
    }
  }

  lemma WithinGrows(h: seq<Acceptance>, write: bool, source: Option<string>, lo: real, hi: real)
    requires h != []
    ensures var n := |h| - 1;
            |Within(h, write, source, lo, hi)| == |Within(h[..n], write, source, lo, hi)| +
            if Falls(h[n], write, source, lo, hi) then 1 else 0
  {
    hide Falls;
    var n := |h| - 1;
    var some := Within(h[..n], write, source, lo, hi);
    assert forall i :: 0 <= i < n ==> h[..n][i] == h[i];
    assert Within(h, write, source, lo, hi) == if Falls(h[n], write, source, lo, hi) then some + {n} else some;
  }

  function AtLeastZero(n: int): nat { if n < 0 then 0 else n }

  /** The limits as they are configured: in no window of the length for writes are more writes accepted than allowed,
      from any source or from all, and likewise for reads. */
  lemma NoWindowHoldsMore(c: Config, h: seq<Acceptance>, source: string, t: real)
    requires Admissible(c, h)
    ensures |Within(h, true, Some(source), t - c.windowSeconds, t)| <= AtLeastZero(c.sourceWrites)
    ensures |Within(h, true, None, t - c.windowSeconds, t)| <= AtLeastZero(c.globalWrites)
    ensures |Within(h, false, Some(source), t - c.readWindowSeconds, t)| <= AtLeastZero(c.sourceReads)
    ensures |Within(h, false, None, t - c.readWindowSeconds, t)| <= AtLeastZero(c.globalReads)
  {
    hide Within, Admissible;
    WindowHolds(c, h, true, source, t);
    WindowHolds(c, h, false, source, t);
  }

  lemma WindowHolds(c: Config, h: seq<Acceptance>, write: bool, source: string, t: real)
    requires Admissible(c, h)
    ensures |Within(h, write, Some(source), t - c.Window(write), t)| <= AtLeastZero(c.SourceLimit(write))
    ensures |Within(h, write, None, t - c.Window(write), t)| <= AtLeastZero(c.GlobalLimit(write))
  {
    hide CountIn, Within, Times, TimesOf, Admissible;
    NoWindowExceedsLimit(c, h, write, source, t);
    CountsAre(h, write, source, t - c.Window(write), t);
  }

  /** A request is admitted exactly when its own window has room, for its source and for all of them. */
  lemma AdmitsIff(c: Config, h: seq<Acceptance>, source: string, now: real)
    ensures Admits(c, h, source, true, now) <==>
            && |Within(h, true, Some(source), now - c.windowSeconds, now)| < c.sourceWrites
            && |Within(h, true, None, now - c.windowSeconds, now)| < c.globalWrites
    ensures Admits(c, h, source, false, now) <==>
            && |Within(h, false, Some(source), now - c.readWindowSeconds, now)| < c.sourceReads
            && |Within(h, false, None, now - c.readWindowSeconds, now)| < c.globalReads
  {
    hide CountIn, Within, Times, TimesOf;
    CountsAre(h, true, source, now - c.windowSeconds, now);
    CountsAre(h, false, source, now - c.readWindowSeconds, now);
  }

  /** Reads and writes draw on separate budgets: an acceptance of the other kind changes no answer. */
  lemma BudgetsAreIndependent(c: Config, h: seq<Acceptance>, other: Acceptance, source: string, write: bool, now: real)
    requires other.write != write
    ensures Admits(c, h + [other], source, write, now) == Admits(c, h, source, write, now)
  {
    assert (h + [other])[..|h|] == h;
  }

  // ---------------------------------------------------------------- trimmed queues

  /** `kept` is what remains of `full` after dropping, from the front, times no later than `bound`. */
  ghost predicate Trimmed(full: seq<real>, kept: seq<real>, bound: real) {
    && |kept| <= |full| && kept == full[|full| - |kept|..]
    && AtMost(full[..|full| - |kept|], bound)
  }

  ghost predicate InTimeOrder(ts: seq<real>, clock: real) {
    (forall i, j :: 0 <= i < j < |ts| ==> ts[i] <= ts[j]) && AtMost(ts, clock)
  }

  /** `_trim` */
  method Trim(values: seq<real>, now: real, window: real) returns (kept: seq<real>)
    ensures Trimmed(values, kept, now - window)
    ensures kept != [] ==> kept[0] > now - window
  {
    kept := values;
    while kept != [] && kept[0] <= now - window
      invariant Trimmed(values, kept, now - window)
    {
      kept := kept[1..];
    }
  }

  lemma TrimTrimmed(full: seq<real>, some: seq<real>, kept: seq<real>, bound: real)
    requires Trimmed(full, some, bound) && Trimmed(some, kept, bound)
    ensures Trimmed(full, kept, bound)
  {
    var a, b := |full| - |some|, |full| - |kept|;
    forall i | 0 <= i < b ensures full[..b][i] <= bound {
      if i < a { assert full[..a][i] == full[i]; } else { assert full[i] == some[i - a] == some[..b - a][i - a]; }
    }
  }

  lemma {:induction false} CountAll(ts: seq<real>, lo: real, hi: real)
    requires forall i :: 0 <= i < |ts| ==> lo < ts[i] <= hi
    ensures CountIn(ts, lo, hi) == |ts|
  {
    if ts != [] {
      CountAll(ts[..|ts| - 1], lo, hi);
    }
  }

  lemma {:induction false} CountConcat(a: seq<real>, b: seq<real>, lo: real, hi: real)
    ensures CountIn(a + b, lo, hi) == CountIn(a, lo, hi) + CountIn(b, lo, hi)
  {
    if b == [] {
      assert a + b == a;
    } else {
      CountConcat(a, b[..|b| - 1], lo, hi);
      assert (a + b)[..|a + b| - 1] == a + b[..|b| - 1];
    }
  }

  lemma {:induction false} CountNone(ts: seq<real>, lo: real, hi: real)
    requires AtMost(ts, lo)
    ensures CountIn(ts, lo, hi) == 0
  {
    if ts != [] {
      CountNone(ts[..|ts| - 1], lo, hi);
    }
  }

  /** A fully trimmed queue holds exactly the acceptances of the current window. */
  lemma TrimmedCounts(full: seq<real>, kept: seq<real>, lo: real, now: real)
    requires Trimmed(full, kept, lo) && InTimeOrder(full, now) && (kept != [] ==> kept[0] > lo)
    ensures |kept| == CountIn(full, lo, now)
  {
    var n := |full| - |kept|;
    assert full == full[..n] + kept;
    assert forall i :: 0 <= i < |kept| ==> kept[i] == full[n + i];
    CountConcat(full[..n], kept, lo, now);
    CountNone(full[..n], lo, now);
    CountAll(kept, lo, now);
  }

  lemma AscendingAppend(ts: seq<real>, t: real, clock: real)
    requires InTimeOrder(ts, t) && t <= clock
    ensures InTimeOrder(ts, clock) && InTimeOrder(ts + [t], clock)
  {}

  lemma AdmissibleFront(c: Config, h: seq<Acceptance>)
    requires Admissible(c, h) && h != []
    ensures Admissible(c, h[..|h| - 1])
    ensures var front := h[..|h| - 1]; forall i :: 0 <= i < |front| ==> front[i].at <= h[|h| - 1].at
  {}

  lemma {:induction false} TimesAscend(c: Config, h: seq<Acceptance>, write: bool, source: string, clock: real)
    requires Admissible(c, h) && forall i :: 0 <= i < |h| ==> h[i].at <= clock
    ensures InTimeOrder(Times(h, write), clock) && InTimeOrder(TimesOf(h, write, source), clock)
  {
    if h != [] {
      hide Admissible, InTimeOrder;
      var front, last := h[..|h| - 1], h[|h| - 1];
      AdmissibleFront(c, h);
      TimesAscend(c, front, write, source, last.at);
      AscendingAppend(Times(front, write), last.at, clock);
      AscendingAppend(TimesOf(front, write, source), last.at, clock);
    }
  }

  lemma TrimmedAppend(full: seq<real>, kept: seq<real>, bound: real, t: real)
    requires Trimmed(full, kept, bound)
    ensures Trimmed(full + [t], kept + [t], bound)
  {}

  // ---------------------------------------------------------------- the limiter

  function Queue(queues: map<string, seq<real>>, source: string): seq<real> {
    if source in queues then queues[source] else []
  }

  /** The queues of one kind hold the history of that kind, less what the bound lets go. */
  ghost predicate Abridged(h: seq<Acceptance>, queues: map<string, seq<real>>, global: seq<real>, write: bool, bound: real) {
    && Trimmed(Times(h, write), global, bound)
    && forall s :: Trimmed(TimesOf(h, write, s), Queue(queues, s), bound)
  }

  class WindowLimiter {
    const config: Config
    var sourceWrites: map<string, seq<real>>
    var globalWrites: seq<real>
    var sourceReads: map<string, seq<real>>
    var globalReads: seq<real>

    /** Every acceptance so far, and the last clock reading: the history the queues abridge. */
    ghost var accepted: seq<Acceptance>
    ghost var clock: real

    constructor (config: Config)
      ensures Valid() && accepted == [] && this.config == config
    {
      this.config := config;
      sourceWrites, globalWrites, sourceReads, globalReads := map[], [], map[], [];
      accepted, clock := [], 0.0;
    }

    ghost predicate Valid()
      reads this
    {
      && Admissible(config, accepted)
      && (forall i :: 0 <= i < |accepted| ==> accepted[i].at <= clock)
      && Abridged(accepted, sourceWrites, globalWrites, true, clock - config.Window(true))
      && Abridged(accepted, sourceReads, globalReads, false, clock - config.Window(false))
    }

    /** Trim both queues to the window ending now, and compare their lengths with the limits. */
    method Decide(source: string, write: bool, now: real, sources: map<string, seq<real>>, global: seq<real>)
      returns (ok: bool, mine: seq<real>, all: seq<real>)
      requires Admissible(config, accepted) && forall i :: 0 <= i < |accepted| ==> accepted[i].at <= now
      requires Abridged(accepted, sources, global, write, now - config.Window(write))
      ensures Abridged(accepted, sources[source := mine], all, write, now - config.Window(write))
      ensures ok <==> Admits(config, accepted, source, write, now)
    {
      hide Trimmed, CountIn, InTimeOrder, AtMost, Admissible, Times, TimesOf;
      var window := config.Window(write);
      mine := Trim(Queue(sources, source), now, window);
      all := Trim(global, now, window);
      TrimTrimmed(TimesOf(accepted, write, source), Queue(sources, source), mine, now - window);
      TrimTrimmed(Times(accepted, write), global, all, now - window);
      TimesAscend(config, accepted, write, source, now);
      TrimmedCounts(TimesOf(accepted, write, source), mine, now - window, now);
      TrimmedCounts(Times(accepted, write), all, now - window, now);
      ok := !(|mine| >= config.SourceLimit(write) || |all| >= config.GlobalLimit(write));
      Refresh(accepted, sources, all, write, now - window, source, mine);
    }

    /** `allow`, with the reading of the monotonic clock as a parameter. */
    method Allow(source: string, write: bool, now: real) returns (ok: bool)
      requires Valid() && (accepted != [] ==> clock <= now)
      modifies this
      ensures Valid() && clock == now
      ensures ok <==> Admits(config, old(accepted), source, write, now)
      ensures accepted == if ok then old(accepted) + [Acceptance(source, write, now)] else old(accepted)
    {
      hide Abridged, Admissible, Admits;
      ghost var h := accepted;
      Later(h, sourceWrites, globalWrites, true, clock - config.Window(true), now - config.Window(true));
      Later(h, sourceReads, globalReads, false, clock - config.Window(false), now - config.Window(false));
      clock := now;
      var mine, all;
      if write {
        ok, mine, all := Decide(source, write, now, sourceWrites, globalWrites);
        sourceWrites, globalWrites := sourceWrites[source := mine], all;
      } else {
        ok, mine, all := Decide(source, write, now, sourceReads, globalReads);
        sourceReads, globalReads := sourceReads[source := mine], all;
      }
      if ok { Record(source, write, now); }
    }

    /** Append the instant to the source's queue and to the global one. */
    method Record(source: string, write: bool, now: real)
      requires Valid() && clock == now && Admits(config, accepted, source, write, now)
      modifies this
      ensures Valid() && clock == now && accepted == old(accepted) + [Acceptance(source, write, now)]
    {
      hide Abridged, Admissible, Admits;
      ghost var h := accepted;
      accepted := h + [Acceptance(source, write, now)];
      AdmissibleAppend(config, h, Acceptance(source, write, now));
      if write {
        Accept(h, sourceWrites, globalWrites, true, now - config.Window(true), source, now);
        Bystander(h, sourceReads, globalReads, false, now - config.Window(false), source, now);
        sourceWrites := sourceWrites[source := Queue(sourceWrites, source) + [now]];
        globalWrites := globalWrites + [now];
      } else {
        Accept(h, sourceReads, globalReads, false, now - config.Window(false), source, now);
        Bystander(h, sourceWrites, globalWrites, true, now - config.Window(true), source, now);
        sourceReads := sourceReads[source := Queue(sourceReads, source) + [now]];
        globalReads := globalReads + [now];
      }
    }
  }

  // ---------------------------------------------------------------- how each step keeps the abridgement

  lemma TrimmedLater(full: seq<real>, kept: seq<real>, bound: real, bound': real)
    requires Trimmed(full, kept, bound) && (full != [] ==> bound <= bound')
    ensures Trimmed(full, kept, bound')
  {}

  /** Letting time pass drops nothing that still counts. */
  lemma Later(h: seq<Acceptance>, queues: map<string, seq<real>>, global: seq<real>, write: bool, bound: real, bound': real)
    requires Abridged(h, queues, global, write, bound) && (h != [] ==> bound <= bound')
    ensures Abridged(h, queues, global, write, bound')
  {
    hide Trimmed;
    TrimmedLater(Times(h, write), global, bound, bound');
    forall s: string ensures Trimmed(TimesOf(h, write, s), Queue(queues, s), bound') {
      TrimmedLater(TimesOf(h, write, s), Queue(queues, s), bound, bound');
    }
  }

  /** Replacing one source's queue and the global queue by further trimmed ones. */
  lemma Refresh(h: seq<Acceptance>, queues: map<string, seq<real>>, all: seq<real>, write: bool, bound: real,
                source: string, mine: seq<real>)
    requires forall s :: Trimmed(TimesOf(h, write, s), Queue(queues, s), bound)
    requires Trimmed(TimesOf(h, write, source), mine, bound) && Trimmed(Times(h, write), all, bound)
    ensures Abridged(h, queues[source := mine], all, write, bound)
  {
    hide Trimmed;
    forall s: string ensures Trimmed(TimesOf(h, write, s), Queue(queues[source := mine], s), bound) {
      assert Trimmed(TimesOf(h, write, s), Queue(queues, s), bound);
    }
  }

  lemma AdmissibleAppend(c: Config, h: seq<Acceptance>, a: Acceptance)
    requires Admissible(c, h) && Admits(c, h, a.source, a.write, a.at) && forall i :: 0 <= i < |h| ==> h[i].at <= a.at
    ensures Admissible(c, h + [a])
  {
    assert (h + [a])[..|h|] == h;
  }

  /** Accepting appends the instant to the source's queue and to the global one. */
  lemma Accept(h: seq<Acceptance>, queues: map<string, seq<real>>, all: seq<real>, write: bool, bound: real,
               source: string, now: real)
    requires Abridged(h, queues, all, write, bound)
    ensures Abridged(h + [Acceptance(source, write, now)], queues[source := Queue(queues, source) + [now]], all + [now], write, bound)
  {
    hide Trimmed;
    var longer, next := h + [Acceptance(source, write, now)], queues[source := Queue(queues, source) + [now]];
    assert longer[..|h|] == h;
    TrimmedAppend(Times(h, write), all, bound, now);
    forall s: string ensures Trimmed(TimesOf(longer, write, s), Queue(next, s), bound) {
      assert Trimmed(TimesOf(h, write, s), Queue(queues, s), bound);
      TrimmedAppend(TimesOf(h, write, s), Queue(queues, s), bound, now);
    }
  }

  /** An acceptance of the other kind leaves these queues right. */
  lemma Bystander(h: seq<Acceptance>, queues: map<string, seq<real>>, all: seq<real>, write: bool, bound: real,
                  source: string, now: real)
    requires Abridged(h, queues, all, write, bound)
    ensures Abridged(h + [Acceptance(source, !write, now)], queues, all, write, bound)
  {
    hide Trimmed;
    var longer := h + [Acceptance(source, !write, now)];
    assert longer[..|h|] == h;
    forall s: string ensures Trimmed(TimesOf(longer, write, s), Queue(queues, s), bound) {
      assert Trimmed(TimesOf(h, write, s), Queue(queues, s), bound);
    }
  }
}
