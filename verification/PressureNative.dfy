/** The compiled kernel's own fold over the transition rows, and its agreement with the host replay: two
    independent implementations of one lifecycle, which read the documents differently. */
module PressureNative {
  import opened Order
  import opened Rearrange
  import opened Pressure
  import opened PressureReplay

  datatype LifecycleState = LifecycleState(
    status: Status, previous: string, processed: nat, conflicted: bool, failureCode: int)

  datatype Search = Search(candidate: Option<Transition>, matches: nat)

  /** The kernel knows every text in the rows; otherwise it refuses them all and there is no status. */
  predicate Projectable(c: Case, ts: seq<Transition>) {
    c.fold(c.initial).Some? && forall i :: 0 <= i < |ts| ==> c.fold(ts[i].row.from).Some? && c.fold(ts[i].row.to).Some?
  }

  /** The status a text of a row stands for. */
  function Meaning(c: Case, text: string): Status {
    match c.fold(text) case Some(s) => s case None => Conflicted
  }

  /** `include_pressure_transition` folded over the rows: count matches, keep the last. */
  function Find(ts: seq<Transition>, previous: string): Search {
    if ts == [] then Search(None, 0)
    else
      var found := Find(ts[..|ts| - 1], previous);
      var edge := ts[|ts| - 1];
      if edge.row.previous == previous then Search(Some(edge), found.matches + 1) else found
  }

  lemma {:induction false} FindHasCandidate(ts: seq<Transition>, previous: string)
    ensures Find(ts, previous).matches > 0 ==> Find(ts, previous).candidate.Some?
  {
    if ts != [] { FindHasCandidate(ts[..|ts| - 1], previous); }
  }

  /** `advance_pressure_lifecycle` */
  function Advance(c: Case, ts: seq<Transition>, s: LifecycleState): LifecycleState {
    if s.conflicted || s.processed >= |ts| then s
    else
      var found := Find(ts, s.previous);
      if found.matches != 1 then s.(conflicted := true, failureCode := if found.matches > 1 then 1 else 2)
      else
        FindHasCandidate(ts, s.previous);
        var e := found.candidate.value;
        var from, to := Meaning(c, e.row.from), Meaning(c, e.row.to);
        if from != s.status || !Allowed(s.status, to) || e.id == "" then
          s.(conflicted := true, failureCode := if from != s.status then 3 else 4)
        else LifecycleState(to, e.id, s.processed + 1, false, 0)
  }

  /** The carried state after `n` iterations over the rows. */
  function Carried(c: Case, ts: seq<Transition>, n: nat): LifecycleState {
    if n == 0 then LifecycleState(Meaning(c, c.initial), "", 0, false, 0)
    else Advance(c, ts, Carried(c, ts, n - 1))
  }

  /** `pressure_lifecycle_projection` */
  function NativeProjection(c: Case, ts: seq<Transition>): LifecycleState {
    var s := Carried(c, ts, |ts|);
    if s.conflicted then s
    else if s.processed != |ts| then s.(conflicted := true, failureCode := 2)
    else s
  }

  /** `pressure_lifecycle_status`: the status every query reports, by its name. */
  function NativeStatus(c: Case, ts: seq<Transition>): Status {
    var s := NativeProjection(c, ts);
    if s.conflicted then Conflicted else s.status
  }

  /** Ids as registry validation demands them: present and, being file names, distinct. */
  ghost predicate WellIdentified(ts: seq<Transition>) {
    DistinctIds(ts) && forall i :: 0 <= i < |ts| ==> ts[i].id != ""
  }

  // ---------------------------------------------------------------- logs that both read alike

  function Wire(previous: Option<string>): string {
    match previous case None => "" case Some(id) => id
  }

  /** A status is called by its own name. */
  predicate ByName(c: Case, text: string) {
    c.fold(text).Some? && text == Text(c.fold(text).value)
  }

  /** The predecessor is absent or a nonempty text, and both readers take it for the same. */
  predicate PlainLink(e: Transition) {
    e.row.previous == Wire(e.previous) && e.previous != Some("")
  }

  /** Every predecessor plain, every status present and called by its own name. */
  ghost predicate PlainLog(c: Case, ts: seq<Transition>) {
    ByName(c, c.initial) &&
    forall i :: 0 <= i < |ts| ==> PlainEvent(c, ts[i])
  }

  predicate PlainEvent(c: Case, e: Transition) {
    PlainLink(e) && e.from == Some(e.row.from) && e.to == e.row.to && ByName(c, e.row.from) && ByName(c, e.row.to)
  }

  lemma {:induction false} FindIsClaims(ts: seq<Transition>, previous: Option<string>)
    requires (forall i :: 0 <= i < |ts| ==> PlainLink(ts[i])) && previous != Some("")
    ensures Find(ts, Wire(previous)).matches == |Claims(ts, previous)|
    ensures |Claims(ts, previous)| == 1 ==> Find(ts, Wire(previous)).candidate == Some(Claims(ts, previous)[0])
  {
    if ts != [] {
      FindIsClaims(ts[..|ts| - 1], previous);
      assert PlainLink(ts[|ts| - 1]);
    }
  }

  /** What `n` conflict-free iterations have processed. */
  ghost predicate Processed(c: Case, ts: seq<Transition>, chain: seq<Transition>) {
    && DistinctIds(chain) && Within(chain, ts) && Linked(chain) && Lawful(c, chain) && Unforked(ts, chain)
    && Carried(c, ts, |chain|) == LifecycleState(Meaning(c, StateAfter(c, chain)), Wire(Head(chain)), |chain|, false, 0)
  }

  lemma {:induction false} CarriedFollows(c: Case, ts: seq<Transition>, chain: seq<Transition>, n: nat)
    requires WellIdentified(ts) && PlainLog(c, ts)
    requires Within(chain, ts) && Linked(chain) && Lawful(c, chain) && Unforked(ts, chain)
    requires n <= |chain| <= |ts|
    ensures Carried(c, ts, n) == LifecycleState(Meaning(c, StateAt(c, chain, n)), Wire(Predecessor(chain, n)), n, false, 0)
  {
    if n > 0 {
      hide Allowed;
      CarriedFollows(c, ts, chain, n - 1);
      var p, e := Predecessor(chain, n - 1), chain[n - 1];
      assert e in ts && e.previous == p;
      assert PlainEvent(c, e);
      FindIsClaims(ts, p);
      assert Claims(ts, p) == [e];
      assert e.from == Some(StateAt(c, chain, n - 1)) && Permits(c, StateAt(c, chain, n - 1), e.to);
    }
  }

  lemma HeadNotEmpty(ts: seq<Transition>, chain: seq<Transition>)
    requires WellIdentified(ts) && Within(chain, ts)
    ensures Head(chain) != Some("")
  {
    if chain != [] { assert chain[|chain| - 1] in ts; }
  }

  lemma {:induction false} CarriedChain(c: Case, ts: seq<Transition>, n: nat) returns (chain: seq<Transition>)
    requires WellIdentified(ts) && PlainLog(c, ts) && n <= |ts|
    requires !Carried(c, ts, n).conflicted
    ensures |chain| == n && Processed(c, ts, chain)
  {
    if n == 0 { return []; }
    var before := CarriedChain(c, ts, n - 1);
    HeadNotEmpty(ts, before);
    FindIsClaims(ts, Head(before));
    FirstClaim(ts, Head(before));
    var e := Claims(ts, Head(before))[0];
    assert Claims(ts, Head(before)) == [e];
    assert PlainEvent(c, e);
    NoRevisit(ts, before, e);
    StateByName(c, ts, before);
    chain := before + [e];
    LawfulStep(c, ts, before, e);
  }

  lemma StateByName(c: Case, ts: seq<Transition>, chain: seq<Transition>)
    requires PlainLog(c, ts) && Within(chain, ts)
    ensures ByName(c, StateAfter(c, chain))
  {
    if chain != [] { assert PlainEvent(c, chain[|chain| - 1]); }
  }

  lemma LawfulStep(c: Case, ts: seq<Transition>, chain: seq<Transition>, e: Transition)
    requires DistinctIds(chain) && Within(chain, ts) && Linked(chain) && Lawful(c, chain) && Unforked(ts, chain)
    requires Claims(ts, Head(chain)) == [e] && e.id !in Ids(chain)
    requires e.from == Some(StateAfter(c, chain)) && Permits(c, StateAfter(c, chain), e.to)
    ensures DistinctIds(chain + [e]) && Within(chain + [e], ts) && Linked(chain + [e])
    ensures Lawful(c, chain + [e]) && Unforked(ts, chain + [e])
  {
    hide DistinctIds, Within, Linked, Lawful, Unforked, Claims, Permits;
    FirstClaim(ts, Head(chain));
    AppendLawful(c, chain, e);
    AppendDistinct(ts, chain, e);
    AppendUnforked(ts, chain, e);
  }

  /** The kernel accepts a plain log exactly when its events are, in some order, one linked and lawful chain. */
  lemma NativeIffOwnChain(c: Case, ts: seq<Transition>)
    requires WellIdentified(ts) && PlainLog(c, ts)
    ensures !NativeProjection(c, ts).conflicted <==>
            exists chain :: multiset(chain) == multiset(ts) && Linked(chain) && Lawful(c, chain)
    ensures forall chain :: multiset(chain) == multiset(ts) && Linked(chain) && Lawful(c, chain) ==>
              !NativeProjection(c, ts).conflicted && NativeStatus(c, ts) == Meaning(c, StateAfter(c, chain))
  {
    forall chain | multiset(chain) == multiset(ts) && Linked(chain) && Lawful(c, chain)
      ensures !NativeProjection(c, ts).conflicted && NativeStatus(c, ts) == Meaning(c, StateAfter(c, chain))
    {
      DistinctOfPermutation(ts, chain);
      FullChainUnforked(ts, chain);
      CarriedFollows(c, ts, chain, |ts|);
    }
    if !NativeProjection(c, ts).conflicted {
      var chain := CarriedChain(c, ts, |ts|);
      FullChain(chain, ts);
    }
  }

  lemma AllMetPermutes(c: Case, ts: seq<Transition>, us: seq<Transition>)
    requires multiset(ts) == multiset(us) && AllMet(c, ts)
    ensures AllMet(c, us)
  {
    forall i | 0 <= i < |us| ensures Met(c, us[i]) {
      assert us[i] in multiset(ts);
    }
  }

  /** No lawful step leads to `conflicted`. */
  lemma NeverConflicted(c: Case, chain: seq<Transition>)
    requires Lawful(c, chain) && Meaning(c, c.initial) != Conflicted
    ensures Meaning(c, StateAfter(c, chain)) != Conflicted
  {
    if chain != [] {
      var i := |chain| - 1;
      assert Permits(c, StateAt(c, chain, i), chain[i].to);
    }
  }

  // ---------------------------------------------------------------- any log, as the kernel reads it

  /** The event as its row tells it, with the statuses called by their names. */
  function AsNative(c: Case): Transition -> Transition {
    (e: Transition) =>
      var from, to := Text(Meaning(c, e.row.from)), Text(Meaning(c, e.row.to));
      e.(previous := if e.row.previous == "" then None else Some(e.row.previous), from := Some(from), to := to,
         row := Row(e.row.previous, from, to))
  }

  function Normal(c: Case, ts: seq<Transition>): seq<Transition> {
    Map(AsNative(c), ts)
  }

  function Named(c: Case): Case {
    c.(initial := Text(Meaning(c, c.initial)))
  }

  lemma {:induction false} FindNormal(c: Case, ts: seq<Transition>, previous: string)
    ensures Find(Normal(c, ts), previous).matches == Find(ts, previous).matches
    ensures match Find(ts, previous).candidate
            case None => Find(Normal(c, ts), previous).candidate == None
            case Some(e) => Find(Normal(c, ts), previous).candidate == Some(AsNative(c)(e))
  {
    if ts != [] {
      var front := ts[..|ts| - 1];
      FindNormal(c, front, previous);
      assert Normal(c, ts)[..|ts| - 1] == Normal(c, front);
    }
  }

  /** The kernel's fold takes no notice of the difference. */
  lemma NormalisedAlike(c: Case, ts: seq<Transition>)
    requires Folds(c.fold)
    ensures NativeProjection(Named(c), Normal(c, ts)) == NativeProjection(c, ts)
  {
    CarriedNormal(c, ts, |ts|);
  }

  lemma {:induction false} CarriedNormal(c: Case, ts: seq<Transition>, n: nat)
    requires Folds(c.fold)
    ensures Carried(Named(c), Normal(c, ts), n) == Carried(c, ts, n)
  {
    NamedMeans(c);
    hide Folds, Text, Meaning, Advance, Normal, AsNative, Named;
    if n > 0 {
      CarriedNormal(c, ts, n - 1);
      AdvanceNormal(c, ts, Carried(c, ts, n - 1));
    } else {
      NamedInitial(c);
    }
  }

  lemma NamedMeans(c: Case)
    requires Folds(c.fold)
    ensures forall s :: Meaning(Named(c), Text(s)) == s
  {}

  lemma NamedInitial(c: Case)
    requires Folds(c.fold)
    ensures Meaning(Named(c), Named(c).initial) == Meaning(c, c.initial)
  {}

  lemma AdvanceNormal(c: Case, ts: seq<Transition>, s: LifecycleState)
    requires Folds(c.fold)
    ensures Advance(Named(c), Normal(c, ts), s) == Advance(c, ts, s)
  {
    NamedMeans(c);
    hide Folds, Text, Meaning, Allowed;
    FindNormal(c, ts, s.previous);
  }

  lemma NormalIsPlain(c: Case, ts: seq<Transition>)
    requires Folds(c.fold) && WellIdentified(ts)
    ensures WellIdentified(Normal(c, ts)) && PlainLog(Named(c), Normal(c, ts))
  {
    hide Text;
    assert forall s :: ByName(Named(c), Text(s));
  }

  /** The events form one linked and lawful chain, in some order, as the kernel reads them. */
  ghost predicate ChainsUp(c: Case, ts: seq<Transition>) {
    exists chain :: multiset(chain) == multiset(Normal(c, ts)) && Linked(chain) && Lawful(Named(c), chain)
  }

  /** The kernel accepts a log exactly when its events chain up, and reports the status the chain reaches. */
  lemma NativeIffLawfulChain(c: Case, ts: seq<Transition>)
    requires Folds(c.fold) && WellIdentified(ts)
    ensures !NativeProjection(c, ts).conflicted <==> ChainsUp(c, ts)
    ensures forall chain :: multiset(chain) == multiset(Normal(c, ts)) && Linked(chain) && Lawful(Named(c), chain) ==>
              NativeStatus(c, ts) == Meaning(Named(c), StateAfter(Named(c), chain))
  {
    hide NativeProjection, Linked, Lawful, Normal, Meaning, Named, Folds;
    NormalIsPlain(c, ts);
    NormalisedAlike(c, ts);
    NativeIffOwnChain(Named(c), Normal(c, ts));
  }
}
