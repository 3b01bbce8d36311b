/** What the replay of a pressure's event log means: a conflict-free projection is exactly
    one linear, lawful history, whatever the order in which the documents were read, and no
    merge of two histories lets one branch win silently. */
module PressureReplay {
  import opened Order
  import opened Pressure

  ghost predicate DistinctIds(ts: seq<Transition>) {
    forall i, j :: 0 <= i < j < |ts| ==> ts[i].id != ts[j].id
  }

  ghost predicate Within(chain: seq<Transition>, ts: seq<Transition>) {
    forall i :: 0 <= i < |chain| ==> chain[i] in ts
  }

  /** Every event names the one before it, and the first names none. */
  ghost predicate Linked(chain: seq<Transition>) {
    forall i {:trigger Predecessor(chain, i)} :: 0 <= i < |chain| ==> chain[i].previous == Predecessor(chain, i)
  }

  /** Every event starts from the status reached so far and takes a step the kernel allows. */
  ghost predicate Lawful(c: Case, chain: seq<Transition>) {
    forall i {:trigger StateAt(c, chain, i)} :: 0 <= i < |chain| ==>
      chain[i].from == Some(StateAt(c, chain, i)) && Permits(c, StateAt(c, chain, i), chain[i].to)
  }

  /** The event meets its evidence requirements on what it can see. */
  ghost predicate Met(c: Case, e: Transition) {
    Missing(FactsAt(c, e), e).None?
  }

  ghost predicate AllMet(c: Case, ts: seq<Transition>) {
    forall i :: 0 <= i < |ts| ==> Met(c, ts[i])
  }

  /** A linear history: one chain from the null head, each step lawful and met. */
  ghost predicate History(c: Case, chain: seq<Transition>) {
    DistinctIds(chain) && Linked(chain) && Lawful(c, chain) && AllMet(c, chain)
  }

  /** Nobody else claims a predecessor that the chain uses. */
  ghost predicate Unforked(ts: seq<Transition>, chain: seq<Transition>) {
    forall i {:trigger Predecessor(chain, i)} :: 0 <= i < |chain| ==>
      Claims(ts, Predecessor(chain, i)) == [chain[i]]
  }

  // ---------------------------------------------------------------- counting

  lemma {:induction false} IdsCount(ts: seq<Transition>)
    requires DistinctIds(ts)
    ensures |Ids(ts)| == |ts|
  {
    if ts != [] {
      var front, last := ts[..|ts| - 1], ts[|ts| - 1];
      IdsCount(front);
      assert ts == front + [last];
      assert Ids(ts) == Ids(front) + {last.id};
    }
  }

  lemma {:induction false} DistinctMultiset(ts: seq<Transition>)
    requires DistinctIds(ts)
    ensures forall e :: multiset(ts)[e] == if e in ts then 1 else 0
  {
    if ts != [] {
      var front, last := ts[..|ts| - 1], ts[|ts| - 1];
      DistinctMultiset(front);
      assert ts == front + [last];
    }
  }

  /** A chain inside `ts` with as many events as `ts` is a rearrangement of it. */
  lemma FullChain(chain: seq<Transition>, ts: seq<Transition>)
    requires DistinctIds(ts) && DistinctIds(chain) && Within(chain, ts)
    ensures |chain| <= |ts|
    ensures |chain| == |ts| ==> multiset(chain) == multiset(ts)
  {
    DistinctMultiset(ts);
    DistinctMultiset(chain);
    assert multiset(chain) <= multiset(ts);
    var rest := multiset(ts) - multiset(chain);
    assert multiset(ts) == multiset(chain) + rest;
    assert |multiset(ts)| == |multiset(chain)| + |rest|;
  }

  lemma DistinctOfPermutation(ts: seq<Transition>, us: seq<Transition>)
    requires DistinctIds(ts) && multiset(ts) == multiset(us)
    ensures DistinctIds(us) && Within(us, ts) && Within(ts, us) && |us| == |ts|
  {
    assert |multiset(us)| == |us| && |multiset(ts)| == |ts|;
    DistinctMultiset(ts);
    assert forall i :: 0 <= i < |us| ==> us[i] in multiset(us);
    assert forall i :: 0 <= i < |ts| ==> ts[i] in multiset(ts);
    forall i, j | 0 <= i < j < |us| ensures us[i].id != us[j].id {
      if us[i].id == us[j].id {
        var a :| 0 <= a < |ts| && ts[a] == us[i];
        var b :| 0 <= b < |ts| && ts[b] == us[j];
        assert a == b;
        TwiceInMultiset(us, i, j);
      }
    }
  }

  lemma TwiceInMultiset(us: seq<Transition>, i: nat, j: nat)
    requires i < j < |us| && us[i] == us[j]
    ensures multiset(us)[us[i]] >= 2
  {
    assert us == us[..j] + [us[j]] + us[j + 1..];
    assert us[i] in us[..j];
  }

  // ---------------------------------------------------------------- the walk

  /** On one chain, an event and its predecessor determine each other. */
  lemma SamePredecessor(chain: seq<Transition>, i: nat, j: nat)
    requires DistinctIds(chain) && i <= |chain| && j <= |chain|
    requires Predecessor(chain, i) == Predecessor(chain, j)
    ensures i == j
  {
    if i > 0 && j > 0 { assert chain[i - 1].id == chain[j - 1].id; }
  }

  /** An event claiming the head of a linked chain is not already on it: `EVENT_CYCLE` cannot arise. */
  lemma NoRevisit(ts: seq<Transition>, chain: seq<Transition>, e: Transition)
    requires DistinctIds(ts) && DistinctIds(chain) && Within(chain, ts) && Linked(chain)
    requires e in ts && e.previous == Head(chain)
    ensures e.id !in Ids(chain)
  {
    forall i | 0 <= i < |chain| ensures chain[i].id != e.id {
      if chain[i].previous == e.previous {
        assert chain[i].previous == Predecessor(chain, i);
        SamePredecessor(chain, i, |chain|);
      } else {
        assert chain[i] in ts;
      }
    }
  }

  /** A lawful step from the head extends a linked, lawful chain. */
  lemma AppendLawful(c: Case, chain: seq<Transition>, e: Transition)
    requires Linked(chain) && Lawful(c, chain)
    requires e.previous == Head(chain) && e.from == Some(StateAfter(c, chain)) && Permits(c, StateAfter(c, chain), e.to)
    ensures Linked(chain + [e]) && Lawful(c, chain + [e])
  {
    hide Permits;
    var next := chain + [e];
    forall i | 0 <= i < |next|
      ensures next[i].previous == Predecessor(next, i) && next[i].from == Some(StateAt(c, next, i))
      ensures Permits(c, StateAt(c, next, i), next[i].to)
    {
      if i < |chain| {
        assert next[i] == chain[i];
        assert chain[i].previous == Predecessor(chain, i) && chain[i].from == Some(StateAt(c, chain, i));
      }
    }
  }

  lemma AppendDistinct(ts: seq<Transition>, chain: seq<Transition>, e: Transition)
    requires DistinctIds(chain) && Within(chain, ts) && e in ts && e.id !in Ids(chain)
    ensures DistinctIds(chain + [e]) && Within(chain + [e], ts)
  {
    forall i | 0 <= i < |chain| ensures chain[i].id != e.id { assert chain[i].id in Ids(chain); }
  }

  lemma AppendUnforked(ts: seq<Transition>, chain: seq<Transition>, e: Transition)
    requires Unforked(ts, chain) && Claims(ts, Head(chain)) == [e]
    ensures Unforked(ts, chain + [e])
  {
    hide Claims;
    var next := chain + [e];
    forall i | 0 <= i <= |chain| ensures Predecessor(next, i) == Predecessor(chain, i) {}
  }

  lemma ExtendHistory(c: Case, ts: seq<Transition>, chain: seq<Transition>, e: Transition)
    requires History(c, chain) && Within(chain, ts) && Unforked(ts, chain)
    requires Claims(ts, Head(chain)) == [e] && Refusal(c, chain, e).None?
    ensures History(c, chain + [e]) && Within(chain + [e], ts) && Unforked(ts, chain + [e])
  {
    hide Missing, Claims, Permits, FactsAt, Linked, Lawful, Unforked, DistinctIds;
    FirstClaim(ts, Head(chain));
    AppendLawful(c, chain, e);
    AppendDistinct(ts, chain, e);
    AppendUnforked(ts, chain, e);
    assert Met(c, e);
  }

  /** What the finished replay guarantees. */
  ghost predicate Finished(c: Case, ts: seq<Transition>, r: Replay) {
    && History(c, r.chain) && Within(r.chain, ts) && Unforked(ts, r.chain)
    && r.state == StateAfter(c, r.chain)
    && var claims := Claims(ts, Head(r.chain));
       match r.stop
       case None => claims == [] && r.seen == Ids(r.chain)
       case Some(ConcurrentTransitions) => |claims| > 1 && r.seen == Ids(r.chain)
       case Some(stop) => |claims| == 1 && Refusal(c, r.chain, claims[0]) == r.stop
                          && r.seen == Ids(r.chain) + {claims[0].id} && stop != EventCycle
  }

  lemma WalkStops(c: Case, ts: seq<Transition>, chain: seq<Transition>)
    requires DistinctIds(ts) && History(c, chain) && Within(chain, ts) && Unforked(ts, chain)
    requires var claims := Claims(ts, Head(chain)); |claims| != 1 || Refusal(c, chain, claims[0]).Some?
    ensures Finished(c, ts, Walk(c, ts, chain)) && Walk(c, ts, chain).chain == chain
  {
    var claims := Claims(ts, Head(chain));
    if |claims| == 1 {
      FirstClaim(ts, Head(chain));
      NoRevisit(ts, chain, claims[0]);
    }
  }

  lemma {:induction false} WalkFinishes(c: Case, ts: seq<Transition>, chain: seq<Transition>)
    requires DistinctIds(ts) && History(c, chain) && Within(chain, ts) && Unforked(ts, chain)
    ensures Finished(c, ts, Walk(c, ts, chain)) && chain <= Walk(c, ts, chain).chain
    decreases |Ids(ts) - Ids(chain)|
  {
    var claims := Claims(ts, Head(chain));
    if |claims| != 1 || Refusal(c, chain, claims[0]).Some? {
      WalkStops(c, ts, chain);
    } else {
      var e := claims[0];
      assert claims == [e];
      FirstClaim(ts, Head(chain));
      ExtendHistory(c, ts, chain, e);
      GrowingChain(ts, chain, e);
      var next := chain + [e];
      assert Walk(c, ts, chain) == Walk(c, ts, next);
      WalkFinishes(c, ts, next);
    }
  }

  lemma PrefixViews(c: Case, chain: seq<Transition>, n: nat, i: nat)
    requires i <= n <= |chain|
    ensures Predecessor(chain[..n], i) == Predecessor(chain, i) && StateAt(c, chain[..n], i) == StateAt(c, chain, i)
  {}

  /** The walk follows any history whose predecessors nobody else claims. */
  lemma {:induction false} WalkFollows(c: Case, ts: seq<Transition>, chain: seq<Transition>, n: nat)
    requires History(c, chain) && Unforked(ts, chain) && n <= |chain|
    ensures Walk(c, ts, chain[..n]) == Walk(c, ts, chain)
    decreases |chain| - n
  {
    if n == |chain| {
      assert chain[..n] == chain;
    } else {
      var e := chain[n];
      PrefixViews(c, chain, n, n);
      assert Claims(ts, Head(chain[..n])) == [e];
      assert e.id !in Ids(chain[..n]);
      assert chain[..n] + [e] == chain[..n + 1];
      assert Some(StateAt(c, chain, n)) == e.from && Met(c, e);
      WalkFollows(c, ts, chain, n + 1);
    }
  }

  // ---------------------------------------------------------------- linear histories

  /** With every event on one chain, predecessors are never shared. */
  lemma FullChainUnforked(ts: seq<Transition>, chain: seq<Transition>)
    requires DistinctIds(ts) && multiset(chain) == multiset(ts) && Linked(chain)
    ensures Unforked(ts, chain) && Claims(ts, Head(chain)) == []
  {
    DistinctOfPermutation(ts, chain);
    forall i, e | 0 <= i <= |chain| && e in ts && e.previous == Predecessor(chain, i)
      ensures i < |chain| && e == chain[i]
    {
      OnlyClaim(ts, chain, i, e);
    }
    forall i | 0 <= i < |chain| ensures Claims(ts, Predecessor(chain, i)) == [chain[i]] {
      ClaimsOnce(ts, Predecessor(chain, i), chain[i]);
    }
    NoClaims(ts, Predecessor(chain, |chain|));
  }

  lemma NoClaims(ts: seq<Transition>, previous: Option<string>)
    requires forall e :: e in ts ==> e.previous != previous
    ensures Claims(ts, previous) == []
  {
    if Claims(ts, previous) != [] {
      FirstClaim(ts, previous);
      assert false;
    }
  }

  lemma OnlyClaim(ts: seq<Transition>, chain: seq<Transition>, i: nat, e: Transition)
    requires DistinctIds(chain) && Linked(chain) && Within(ts, chain)
    requires i <= |chain| && e in ts && e.previous == Predecessor(chain, i)
    ensures i < |chain| && e == chain[i]
  {
    var j :| 0 <= j < |chain| && chain[j] == e;
    assert chain[j].previous == Predecessor(chain, j);
    SamePredecessor(chain, i, j);
  }

  lemma {:induction false} ClaimsOnce(ts: seq<Transition>, previous: Option<string>, e: Transition)
    requires DistinctIds(ts) && e in ts && e.previous == previous
    requires forall x :: x in ts && x.previous == previous ==> x == e
    ensures Claims(ts, previous) == [e]
  {
    var front, last := ts[..|ts| - 1], ts[|ts| - 1];
    assert ts == front + [last];
    if last == e {
      assert e !in front;
      NoClaims(front, previous);
    } else {
      assert e in front;
      ClaimsOnce(front, previous, e);
    }
  }

  /** A history that uses every transition is what the replay returns. */
  lemma FullHistoryReplays(c: Case, ts: seq<Transition>, chain: seq<Transition>)
    requires DistinctIds(ts) && multiset(chain) == multiset(ts) && History(c, chain)
    ensures ConflictFree(c, ts) && Project(c, ts).chain == chain && Project(c, ts).state == StateAfter(c, chain)
  {
    hide Missing, Claims, Permits, Lawful, Linked, Unforked;
    DistinctOfPermutation(ts, chain);
    FullChainUnforked(ts, chain);
    WalkFollows(c, ts, chain, 0);
    assert chain[..0] == [];
    IdsCount(chain);
  }

  /** A conflict-free replay uses every transition. */
  lemma ReplayIsFullHistory(c: Case, ts: seq<Transition>)
    requires DistinctIds(ts) && ConflictFree(c, ts)
    ensures multiset(Project(c, ts).chain) == multiset(ts) && History(c, Project(c, ts).chain)
  {
    hide Missing, Claims, Permits, Lawful, Linked, Unforked, Walk;
    WalkFinishes(c, ts, []);
    IdsCount(Project(c, ts).chain);
    FullChain(Project(c, ts).chain, ts);
  }

  /** A projection has no lifecycle diagnostic exactly when its transitions are, in some
      order, one linear history; that history is the replayed chain. */
  lemma ConflictFreeIffLinear(c: Case, ts: seq<Transition>)
    requires DistinctIds(ts)
    ensures ConflictFree(c, ts) <==> exists chain :: multiset(chain) == multiset(ts) && History(c, chain)
    ensures forall chain :: multiset(chain) == multiset(ts) && History(c, chain) ==> Project(c, ts).chain == chain
  {
    hide History, Project, ConflictFree;
    forall chain | multiset(chain) == multiset(ts) && History(c, chain)
      ensures ConflictFree(c, ts) && Project(c, ts).chain == chain
    {
      FullHistoryReplays(c, ts, chain);
    }
    if ConflictFree(c, ts) { ReplayIsFullHistory(c, ts); }
  }

  /** Every event of the set claims another event of the set, as events that form a cycle of predecessors do. */
  ghost predicate Circular(s: set<Transition>) {
    forall e {:trigger ClaimsFrom(e, s)} :: e in s ==> ClaimsFrom(e, s)
  }

  ghost predicate ClaimsFrom(e: Transition, s: set<Transition>) {
    exists d :: d in s && e.previous == Some(d.id)
  }

  lemma {:induction false} CircularOffChain(ts: seq<Transition>, chain: seq<Transition>, s: set<Transition>, k: nat)
    requires DistinctIds(ts) && Within(chain, ts) && Linked(chain) && k < |chain|
    requires Circular(s) && forall e :: e in s ==> e in ts
    ensures chain[k] !in s
    decreases k
  {
    assert chain[k].previous == Predecessor(chain, k);
    if chain[k] in s {
      assert ClaimsFrom(chain[k], s);
      var d :| d in s && chain[k].previous == Some(d.id);
      assert k > 0 && chain[k - 1].id == d.id && chain[k - 1] in ts;
      CircularOffChain(ts, chain, s, k - 1);
      assert false;
    }
  }

  /** The replay never reports `EVENT_CYCLE`; a cycle of predecessors is unreachable from the null
      head and surfaces as dangling transitions. */
  lemma CyclesSurfaceAsDangling(c: Case, ts: seq<Transition>, s: set<Transition>)
    requires DistinctIds(ts)
    requires s != {} && Circular(s) && forall e :: e in s ==> e in ts
    ensures Project(c, ts).stop != Some(EventCycle)
    ensures Dangling(c, ts) && StatusOf(c, ts) == Text(Conflicted)
    ensures forall k :: 0 <= k < |Project(c, ts).chain| ==> Project(c, ts).chain[k] !in s
  {
    var r := Project(c, ts);
    WalkFinishes(c, ts, []);
    forall k | 0 <= k < |r.chain| ensures r.chain[k] !in s {
      CircularOffChain(ts, r.chain, s, k);
    }
    var x :| x in s;
    assert x.id !in r.seen by { SeenOffLoop(c, ts, r, s, x); }
    IdsCount(ts);
    assert r.seen <= Ids(ts) by { SeenAreIds(c, ts, r); }
    assert x.id in Ids(ts);
    ProperSubset(r.seen, Ids(ts), x.id);
  }

  lemma SeenOffLoop(c: Case, ts: seq<Transition>, r: Replay, s: set<Transition>, x: Transition)
    requires DistinctIds(ts) && Finished(c, ts, r) && Circular(s) && forall e :: e in s ==> e in ts
    requires forall k :: 0 <= k < |r.chain| ==> r.chain[k] !in s
    requires x in s
    ensures x.id !in r.seen
  {
    var claims := Claims(ts, Head(r.chain));
    assert x.id !in Ids(r.chain) by {
      forall k | 0 <= k < |r.chain| ensures r.chain[k].id != x.id { assert r.chain[k] in ts && x in ts; }
    }
    assert ClaimsFrom(x, s);
    var d :| d in s && x.previous == Some(d.id);
    if |claims| == 1 && claims[0].id == x.id {
      FirstClaim(ts, Head(r.chain));
      assert false;
    }
  }

  lemma SeenAreIds(c: Case, ts: seq<Transition>, r: Replay)
    requires Finished(c, ts, r)
    ensures r.seen <= Ids(ts)
  {
    var claims := Claims(ts, Head(r.chain));
    if claims != [] { FirstClaim(ts, Head(r.chain)); }
  }

  lemma ProperSubset(a: set<string>, b: set<string>, x: string)
    requires a <= b && x in b && x !in a
    ensures |a| < |b|
  {
    assert b == a + (b - a) && x in b - a;
    assert |b| == |a| + |b - a|;
  }

  // ---------------------------------------------------------------- document order

  lemma {:induction false} ClaimsCount(ts: seq<Transition>, previous: Option<string>, e: Transition)
    ensures multiset(Claims(ts, previous))[e] == if e.previous == previous then multiset(ts)[e] else 0
  {
    if ts != [] {
      ClaimsCount(ts[..|ts| - 1], previous, e);
      assert ts == ts[..|ts| - 1] + [ts[|ts| - 1]];
    }
  }

  lemma SingletonMultiset(a: seq<Transition>, b: seq<Transition>)
    requires multiset(a) == multiset(b)
    ensures |a| == |b|
    ensures |a| <= 1 ==> a == b
  {
    assert |multiset(a)| == |a| && |multiset(b)| == |b|;
    if |a| == 1 {
      assert a[0] in multiset(b);
    }
  }

  lemma ClaimsPermute(ts: seq<Transition>, us: seq<Transition>, previous: Option<string>)
    requires multiset(ts) == multiset(us)
    ensures |Claims(ts, previous)| == |Claims(us, previous)|
    ensures |Claims(ts, previous)| <= 1 ==> Claims(ts, previous) == Claims(us, previous)
  {
    var a, b := multiset(Claims(ts, previous)), multiset(Claims(us, previous));
    forall e: Transition ensures a[e] == b[e] {
      ClaimsCount(ts, previous, e);
      ClaimsCount(us, previous, e);
    }
    assert a == b;
    SingletonMultiset(Claims(ts, previous), Claims(us, previous));
  }

  /** Reading the same documents in another order changes nothing, whatever their ids. */
  lemma {:induction false} OrderIrrelevant(c: Case, ts: seq<Transition>, us: seq<Transition>, chain: seq<Transition>)
    requires multiset(ts) == multiset(us)
    ensures Walk(c, ts, chain) == Walk(c, us, chain)
    decreases |Ids(ts) - Ids(chain)|
  {
    ClaimsPermute(ts, us, Head(chain));
    var claims := Claims(ts, Head(chain));
    if |claims| == 1 && Refusal(c, chain, claims[0]).None? {
      FirstClaim(ts, Head(chain));
      GrowingChain(ts, chain, claims[0]);
      OrderIrrelevant(c, ts, us, chain + [claims[0]]);
    }
  }

  lemma ProjectionIsOrderFree(c: Case, ts: seq<Transition>, us: seq<Transition>)
    requires multiset(ts) == multiset(us)
    ensures Project(c, ts) == Project(c, us) && StatusOf(c, ts) == StatusOf(c, us)
  {
    OrderIrrelevant(c, ts, us, []);
    assert |multiset(ts)| == |ts| && |multiset(us)| == |us|;
  }

  // ---------------------------------------------------------------- merges

  /** Whatever linked chain the log holds, the replayed chain and it agree as far as both go. */
  lemma ReplayComparable(c: Case, ts: seq<Transition>, chain: seq<Transition>)
    requires DistinctIds(ts) && Within(chain, ts) && Linked(chain)
    ensures Project(c, ts).chain <= chain || chain <= Project(c, ts).chain
  {
    var r := Project(c, ts).chain;
    WalkFinishes(c, ts, []);
    forall i | 0 <= i < |r| && i < |chain| ensures r[i] == chain[i] { AgreeAt(ts, r, chain, i); }
  }

  lemma {:induction false} AgreeAt(ts: seq<Transition>, r: seq<Transition>, chain: seq<Transition>, i: nat)
    requires Unforked(ts, r) && Within(chain, ts) && Linked(chain)
    requires i < |r| && i < |chain|
    ensures r[i] == chain[i]
  {
    if i > 0 { AgreeAt(ts, r, chain, i - 1); }
    assert Predecessor(r, i) == Predecessor(chain, i) == chain[i].previous;
    assert chain[i] in ts;
    ClaimsAre(ts, Predecessor(r, i), chain[i]);
  }

  /** A merge of two histories, each valid under its own evidence, can be conflict-free under
      any evidence only if one history extends the other. */
  lemma MergeNeedsPrefix(ca: Case, a: seq<Transition>, cb: Case, b: seq<Transition>, c: Case, merged: seq<Transition>)
    requires DistinctIds(merged) && Within(a, merged) && Within(b, merged)
    requires History(ca, a) && History(cb, b)
    requires ConflictFree(c, merged)
    ensures a <= b || b <= a
    ensures a <= Project(c, merged).chain && b <= Project(c, merged).chain
  {
    var r := Project(c, merged).chain;
    WalkFinishes(c, merged, []);
    IdsCount(r);
    FullChain(a, merged);
    FullChain(b, merged);
    ReplayComparable(c, merged, a);
    ReplayComparable(c, merged, b);
  }

  ghost predicate ForkAt(a: seq<Transition>, b: seq<Transition>, k: nat) {
    k < |a| && k < |b| && a[..k] == b[..k] && a[k] != b[k]
  }

  /** If two linked chains fork, their merge is conflicted under any evidence, and no replayed
      event belongs to only one branch. */
  lemma ForkIsConflicted(a: seq<Transition>, b: seq<Transition>, c: Case, merged: seq<Transition>, k: nat)
    requires DistinctIds(merged) && DistinctIds(a) && Within(a, merged) && Within(b, merged)
    requires Linked(a) && Linked(b) && ForkAt(a, b, k)
    ensures StatusOf(c, merged) == Text(Conflicted)
    ensures Project(c, merged).chain <= a[..k]
  {
    var r := Project(c, merged);
    WalkFinishes(c, merged, []);
    ReplayComparable(c, merged, a);
    ReplayComparable(c, merged, b);
    assert |r.chain| <= k;
    IdsCount(r.chain);
    FullChain(a, merged);
  }

  /** If the shared stretch is a history under the merged evidence and nothing else forks it,
      the replay stops exactly where the branches part and says why. */
  lemma ForkIsLocated(a: seq<Transition>, b: seq<Transition>, c: Case, merged: seq<Transition>, k: nat)
    requires Within(a, merged) && Within(b, merged)
    requires Linked(a) && Linked(b) && ForkAt(a, b, k)
    requires History(c, a[..k]) && Unforked(merged, a[..k])
    ensures Project(c, merged).chain == a[..k]
    ensures Project(c, merged).stop == Some(ConcurrentTransitions)
  {
    WalkFollows(c, merged, a[..k], 0);
    assert a[..k][..0] == [];
    PrefixViews(c, a, k, k);
    PrefixViews(c, b, k, k);
    assert a[k].previous == Predecessor(a, k) && b[k].previous == Predecessor(b, k);
    assert a[k] in merged && b[k] in merged;
    ClaimsAre(merged, Head(a[..k]), a[k]);
    ClaimsAre(merged, Head(a[..k]), b[k]);
    TwoClaims(Claims(merged, Head(a[..k])), a[k], b[k]);
  }

  lemma TwoClaims(claims: seq<Transition>, x: Transition, y: Transition)
    requires x in claims && y in claims && x != y
    ensures |claims| > 1
  {
    var i :| 0 <= i < |claims| && claims[i] == x;
    var j :| 0 <= j < |claims| && claims[j] == y;
    assert i != j;
  }
}
