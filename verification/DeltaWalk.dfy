/** The `changes` query: walk back from the current content identity through the retained
    deltas to the identity a client last saw. */
module DeltaWalk {
  import opened Order

  /** An entry of the delta history; an identity is None when missing or not text. */
  datatype Item = Delta(current: Option<string>, previous: Option<string>) | NotAnObject

  datatype Answer = Unchanged | Chain(deltas: seq<Item>) | Full

  // ---------------------------------------------------------------- following deltas

  predicate LeadsTo(d: Item, cursor: Option<string>) { d.Delta? && d.current == cursor }

  /** The last-listed delta that leads to the identity. */
  function LastFor(deltas: seq<Item>, cursor: Option<string>): (r: Option<nat>)
    ensures r.Some? ==> r.value < |deltas| && deltas[r.value].Delta? && deltas[r.value].current == cursor
  {
    if deltas == [] then None
    else if LeadsTo(deltas[|deltas| - 1], cursor) then Some(|deltas| - 1)
    else LastFor(deltas[..|deltas| - 1], cursor)
  }

  /** The identity before this one, when a delta records it as text. */
  function Before(deltas: seq<Item>, cursor: Option<string>): Option<string> {
    match LastFor(deltas, cursor)
    case Some(i) => deltas[i].previous
    case None => None
  }

  /** `cs` follows the last-listed deltas back from `current`. */
  ghost predicate Follows(deltas: seq<Item>, current: Option<string>, cs: seq<Option<string>>) {
    && |cs| > 0 && cs[0] == current
    && forall i :: 0 < i < |cs| ==> cs[i].Some? && cs[i] == Before(deltas, cs[i - 1])
  }

  ghost predicate Arrives(deltas: seq<Item>, current: Option<string>, value: string, cs: seq<Option<string>>) {
    Follows(deltas, current, cs) && cs[|cs| - 1] == Some(value)
  }

  /** The requested identity lies on the walk back from the current one. */
  ghost predicate Reachable(deltas: seq<Item>, current: Option<string>, value: string) {
    exists cs :: Arrives(deltas, current, value, cs)
  }

  /** The walk is deterministic. */
  lemma {:induction false} SameWalk(deltas: seq<Item>, current: Option<string>, a: seq<Option<string>>, b: seq<Option<string>>, i: nat)
    requires Follows(deltas, current, a) && Follows(deltas, current, b) && i < |a| && i < |b|
    ensures a[i] == b[i]
  {
    if i > 0 { SameWalk(deltas, current, a, b, i - 1); }
  }

  /** From equal identities the walk goes on equally. */
  lemma {:induction false} SameFromThere(deltas: seq<Item>, current: Option<string>, cs: seq<Option<string>>, i: nat, j: nat, k: nat)
    requires Follows(deltas, current, cs) && i <= j && j + k < |cs| && cs[i] == cs[j]
    ensures cs[i + k] == cs[j + k]
    decreases k
  {
    if k > 0 { SameFromThere(deltas, current, cs, i, j, k - 1); }
  }

  // ---------------------------------------------------------------- the pigeonhole

  lemma {:induction false} DistinctBelow(s: seq<nat>, n: nat)
    requires forall i, j :: 0 <= i < j < |s| ==> s[i] != s[j]
    requires forall i :: 0 <= i < |s| ==> s[i] < n
    ensures |s| <= n
    decreases n
  {
    if s != [] { assert s[0] < n; }
    if n > 0 {
      if p :| 0 <= p < |s| && s[p] == n - 1 {
        DistinctBelow(s[..p] + s[p + 1..], n - 1);
      } else {
        DistinctBelow(s, n - 1);
      }
    }
  }

  /** A walk that meets the requested identity for the first time at its end has used no more
      deltas than there are. */
  lemma FirstArrivalIsShort(deltas: seq<Item>, current: Option<string>, value: string, cs: seq<Option<string>>)
    requires Arrives(deltas, current, value, cs)
    requires forall i :: 0 <= i < |cs| - 1 ==> cs[i] != Some(value)
    ensures |cs| - 1 <= |deltas|
  {
    var n := |cs| - 1;
    forall i | 0 <= i < n ensures LastFor(deltas, cs[i]).Some? {
      assert cs[i + 1] == Before(deltas, cs[i]);
    }
    var used := seq(n, i requires 0 <= i < n => LastFor(deltas, cs[i]).value);
    forall i, j | 0 <= i < j < n ensures used[i] != used[j] {
      if cs[i] == cs[j] { SameFromThere(deltas, current, cs, i, j, n - j); }
      assert deltas[used[i]].current == cs[i] && deltas[used[j]].current == cs[j];
    }
    DistinctBelow(used, |deltas|);
  }

  lemma {:induction false} FirstArrival(deltas: seq<Item>, current: Option<string>, value: string, cs: seq<Option<string>>)
    returns (first: seq<Option<string>>)
    requires Arrives(deltas, current, value, cs)
    ensures Arrives(deltas, current, value, first)
    ensures forall i :: 0 <= i < |first| - 1 ==> first[i] != Some(value)
    decreases |cs|
  {
    if i :| 0 <= i < |cs| - 1 && cs[i] == Some(value) {
      first := FirstArrival(deltas, current, value, cs[..i + 1]);
    } else {
      first := cs;
    }
  }

  // ---------------------------------------------------------------- the query

  /** The walk so far: identities met and deltas taken, none of them the requested identity. */
  ghost predicate Walked(deltas: seq<Item>, current: Option<string>, value: string, cs: seq<Option<string>>, chain: seq<Item>) {
    && Follows(deltas, current, cs) && |chain| == |cs| - 1
    && (forall i :: 0 <= i < |chain| ==> cs[i] != Some(value))
    && forall i :: 0 <= i < |chain| ==> chain[i] == Delta(cs[i], cs[i + 1])
  }

  /** While a reachable identity has not been met, the walk can go on and has not outrun the deltas. */
  lemma ReachableGoesOn(deltas: seq<Item>, current: Option<string>, value: string, cs: seq<Option<string>>)
    requires Follows(deltas, current, cs) && forall i :: 0 <= i < |cs| - 1 ==> cs[i] != Some(value)
    requires Reachable(deltas, current, value)
    ensures |cs| - 1 <= |deltas|
    ensures cs[|cs| - 1] == Some(value) || Before(deltas, cs[|cs| - 1]).Some?
  {
    var some :| Arrives(deltas, current, value, some);
    var first := FirstArrival(deltas, current, value, some);
    FirstArrivalIsShort(deltas, current, value, first);
    if |first| <= |cs| {
      SameWalk(deltas, current, cs, first, |first| - 1);
    } else {
      SameWalk(deltas, current, cs, first, |cs| - 1);
      assert first[|cs|] == Before(deltas, first[|cs| - 1]);
    }
  }

  /** A walk that stops, or that has outrun the deltas, without meeting the identity never will. */
  lemma GivingUpIsRight(deltas: seq<Item>, current: Option<string>, value: string, cs: seq<Option<string>>)
    requires Follows(deltas, current, cs) && forall i :: 0 <= i < |cs| - 1 ==> cs[i] != Some(value)
    requires |cs| - 1 > |deltas| || (cs[|cs| - 1] != Some(value) && Before(deltas, cs[|cs| - 1]).None?)
    ensures !Reachable(deltas, current, value)
  {
    if Reachable(deltas, current, value) { ReachableGoesOn(deltas, current, value, cs); }
  }

  /** Each delta starts where the one before it ended, from the identity the client saw to the
      current one. */
  ghost predicate Contiguous(chain: seq<Item>, value: string, current: Option<string>) {
    && |chain| > 0 && (forall i :: 0 <= i < |chain| ==> chain[i].Delta?)
    && chain[0].previous == Some(value) && chain[|chain| - 1].current == current
    && forall i :: 0 < i < |chain| ==> chain[i].previous == chain[i - 1].current
  }

  function Reversed(s: seq<Item>): (r: seq<Item>)
    ensures |r| == |s| && forall i :: 0 <= i < |s| ==> r[i] == s[|s| - 1 - i]
  {
    seq(|s|, i requires 0 <= i < |s| => s[|s| - 1 - i])
  }

  lemma ReversedIsContiguous(deltas: seq<Item>, current: Option<string>, value: string, cs: seq<Option<string>>, chain: seq<Item>)
    requires Walked(deltas, current, value, cs, chain) && cs[|cs| - 1] == Some(value) && current != Some(value)
    requires forall d :: d in chain ==> d in deltas
    ensures Contiguous(Reversed(chain), value, current) && forall d :: d in Reversed(chain) ==> d in deltas
  {
    var r, n := Reversed(chain), |chain|;
    forall i | 0 <= i < n ensures r[i] == Delta(cs[n - 1 - i], cs[n - i]) {
      assert r[i] == chain[n - 1 - i];
    }
    forall d | d in r ensures d in deltas {
      var i :| 0 <= i < n && r[i] == d;
      assert chain[n - 1 - i] in chain;
    }
  }

  /** `next(item for item in reversed(deltas) if ...)` */
  method FindLast(deltas: seq<Item>, cursor: Option<string>) returns (found: Option<nat>)
    ensures found == LastFor(deltas, cursor)
    ensures match found
            case Some(i) => i < |deltas| && LeadsTo(deltas[i], cursor) && forall j :: i < j < |deltas| ==> !LeadsTo(deltas[j], cursor)
            case None => forall j :: 0 <= j < |deltas| ==> !LeadsTo(deltas[j], cursor)
  {
    var i := |deltas|;
    assert deltas[..i] == deltas;
    while i > 0
      invariant 0 <= i <= |deltas| && LastFor(deltas[..i], cursor) == LastFor(deltas, cursor)
      invariant forall j :: i <= j < |deltas| ==> !LeadsTo(deltas[j], cursor)
    {
      i := i - 1;
      assert deltas[..i + 1][..i] == deltas[..i];
      if LeadsTo(deltas[i], cursor) { return Some(i); }
    }
    return None;
  }

  /** The `changes` branch of `architecture_query`: a delta chain exactly when the requested
      identity is reachable, and the length cutoff never turns a reachable one away. */
  method Changes(current: Option<string>, deltas: seq<Item>, value: string) returns (answer: Answer)
    ensures answer.Unchanged? <==> current == Some(value)
    ensures answer.Chain? <==> current != Some(value) && Reachable(deltas, current, value)
    ensures answer.Chain? ==> Contiguous(answer.deltas, value, current) && forall d :: d in answer.deltas ==> d in deltas
  {
    if current == Some(value) { return Unchanged; }
    hide Contiguous, Reversed, Reachable, LastFor;
    var chain: seq<Item> := [];
    var cursor := current;
    ghost var cs := [current];
    while cursor != Some(value)
      invariant Walked(deltas, current, value, cs, chain) && cursor == cs[|cs| - 1]
      invariant |chain| <= |deltas| && forall d :: d in chain ==> d in deltas
      decreases |deltas| - |chain|
    {
      var found := FindLast(deltas, cursor);
      if found.None? {
        GivingUpIsRight(deltas, current, value, cs);
        return Full;
      }
      var candidate := deltas[found.value];
      if candidate.previous.None? {
        GivingUpIsRight(deltas, current, value, cs);
        return Full;
      }
      chain := chain + [candidate];
      cursor := candidate.previous;
      cs := cs + [cursor];
      if |chain| > |deltas| {
        GivingUpIsRight(deltas, current, value, cs);
        return Full;
      }
    }
    assert Arrives(deltas, current, value, cs);
    ReversedIsContiguous(deltas, current, value, cs, chain);
    return Chain(Reversed(chain));
  }
}
