/** References to producers' own records (semantic.py): the first reference to a stable identity binds it, and
    later ones must agree with that one. */
module Producers {
  import opened Order

  datatype Reference = Reference(
    stableId: string, producer: string, recordKind: string, schemaVersion: string, digest: Option<string>)

  /** The reference that binds an identity: the first one. */
  function Bound(refs: seq<Reference>, id: string): Option<Reference> {
    if refs == [] then None
    else if refs[0].stableId == id then Some(refs[0])
    else Bound(refs[1..], id)
  }

  predicate SameProducer(a: Reference, b: Reference) {
    a.producer == b.producer && a.recordKind == b.recordKind && a.schemaVersion == b.schemaVersion
  }

  predicate SameDigest(a: Reference, b: Reference) {
    a.digest.Some? && b.digest.Some? ==> a.digest == b.digest
  }

  predicate Agrees(prior: Option<Reference>, r: Reference) {
    prior.Some? ==> SameProducer(prior.value, r) && SameDigest(prior.value, r)
  }

  predicate AgreesAt(refs: seq<Reference>, i: nat)
    requires i < |refs|
  {
    Agrees(Bound(refs[..i], refs[i].stableId), refs[i])
  }

  /** Every reference agrees with the one that bound its identity before it. */
  predicate Consistent(refs: seq<Reference>) {
    forall i {:trigger AgreesAt(refs, i)} :: 0 <= i < |refs| ==> AgreesAt(refs, i)
  }

  lemma {:induction false} BoundAppend(refs: seq<Reference>, more: seq<Reference>, id: string)
    ensures Bound(refs + more, id) == if Bound(refs, id).Some? then Bound(refs, id) else Bound(more, id)
  {
    if refs == [] {
      assert refs + more == more;
    } else {
      assert (refs + more)[1..] == refs[1..] + more;
      BoundAppend(refs[1..], more, id);
    }
  }

  predicate ProducerConflict(known: seq<Reference>, r: Reference) {
    Bound(known, r.stableId).Some? && !SameProducer(Bound(known, r.stableId).value, r)
  }

  predicate DigestConflict(known: seq<Reference>, r: Reference) {
    && Bound(known, r.stableId).Some? && SameProducer(Bound(known, r.stableId).value, r)
    && !SameDigest(Bound(known, r.stableId).value, r)
  }

  ghost predicate Binds(bindings: map<string, Reference>, refs: seq<Reference>) {
    forall id :: Bound(refs, id) == if id in bindings then Some(bindings[id]) else None
  }

  lemma BindsMore(bindings: map<string, Reference>, refs: seq<Reference>, r: Reference)
    requires Binds(bindings, refs)
    ensures Binds(if r.stableId in bindings then bindings else bindings[r.stableId := r], refs + [r])
  {
    var next := if r.stableId in bindings then bindings else bindings[r.stableId := r];
    forall id ensures Bound(refs + [r], id) == if id in next then Some(next[id]) else None {
      BoundAppend(refs, [r], id);
      assert [r][1..] == [];
      BindsAt(bindings, refs, id);
    }
  }

  /** `setdefault` for every reference in turn. */
  method Bind(refs: seq<Reference>) returns (bindings: map<string, Reference>)
    ensures Binds(bindings, refs)
  {
    bindings := map[];
    for i := 0 to |refs|
      invariant Binds(bindings, refs[..i])
    {
      BindsMore(bindings, refs[..i], refs[i]);
      assert refs[..i + 1] == refs[..i] + [refs[i]];
      if refs[i].stableId !in bindings { bindings := bindings[refs[i].stableId := refs[i]]; }
    }
    assert refs[..|refs|] == refs;
  }

  /** The candidate's references against those of the stored records, and against its own earlier ones. */
  method CheckReferences(existing: seq<Reference>, candidate: seq<Reference>) returns (producer: bool, digest: bool)
    ensures producer <==> exists j :: 0 <= j < |candidate| && ProducerConflict(existing + candidate[..j], candidate[j])
    ensures digest <==> exists j :: 0 <= j < |candidate| && DigestConflict(existing + candidate[..j], candidate[j])
  {
    hide Bound, Binds;
    var bindings := Bind(existing);
    producer, digest := false, false;
    assert existing + candidate[..0] == existing;
    for j := 0 to |candidate|
      invariant Binds(bindings, existing + candidate[..j])
      invariant producer <==> exists k :: 0 <= k < j && ProducerConflict(existing + candidate[..k], candidate[k])
      invariant digest <==> exists k :: 0 <= k < j && DigestConflict(existing + candidate[..k], candidate[k])
    {
      var r := candidate[j];
      ghost var known := existing + candidate[..j];
      BindsMore(bindings, known, r);
      BindsAt(bindings, known, r.stableId);
      assert existing + candidate[..j + 1] == known + [r];
      if r.stableId in bindings && !SameProducer(bindings[r.stableId], r) {
        producer := true;
      } else if r.stableId in bindings && !SameDigest(bindings[r.stableId], r) {
        digest := true;
      } else if r.stableId !in bindings {
        bindings := bindings[r.stableId := r];
      }
    }
  }

  lemma BindsAt(bindings: map<string, Reference>, refs: seq<Reference>, id: string)
    requires Binds(bindings, refs)
    ensures Bound(refs, id) == if id in bindings then Some(bindings[id]) else None
  {}

  /** The candidate's references raise no conflict. */
  predicate Accepted(existing: seq<Reference>, candidate: seq<Reference>) {
    forall j :: 0 <= j < |candidate| ==> Agrees(Bound(existing + candidate[..j], candidate[j].stableId), candidate[j])
  }

  lemma AcceptedIff(existing: seq<Reference>, candidate: seq<Reference>)
    ensures Accepted(existing, candidate) <==>
            && !(exists j :: 0 <= j < |candidate| && ProducerConflict(existing + candidate[..j], candidate[j]))
            && !(exists j :: 0 <= j < |candidate| && DigestConflict(existing + candidate[..j], candidate[j]))
  {
    hide Bound;
    forall j | 0 <= j < |candidate|
      ensures Agrees(Bound(existing + candidate[..j], candidate[j].stableId), candidate[j]) <==>
              !ProducerConflict(existing + candidate[..j], candidate[j]) && !DigestConflict(existing + candidate[..j], candidate[j])
    {}
  }

  /** A list stays consistent exactly when what is appended raises no conflict. */
  lemma ConsistentExtends(existing: seq<Reference>, candidate: seq<Reference>)
    ensures Consistent(existing + candidate) <==> Consistent(existing) && Accepted(existing, candidate)
  {
    hide Bound;
    var all := existing + candidate;
    forall i | 0 <= i < |all|
      ensures AgreesAt(all, i) <==>
              if i < |existing| then AgreesAt(existing, i)
              else Agrees(Bound(existing + candidate[..i - |existing|], candidate[i - |existing|].stableId), candidate[i - |existing|])
    {
      if i < |existing| { assert all[..i] == existing[..i]; } else { assert all[..i] == existing + candidate[..i - |existing|]; }
    }
    if Consistent(all) {
      forall i | 0 <= i < |existing| ensures AgreesAt(existing, i) { assert AgreesAt(all, i); }
      forall j | 0 <= j < |candidate|
        ensures Agrees(Bound(existing + candidate[..j], candidate[j].stableId), candidate[j])
      {
        assert AgreesAt(all, |existing| + j);
      }
    }
  }

  /** In a consistent list one identity has one producer, kind and schema version. */
  lemma OneProducer(refs: seq<Reference>, i: nat, j: nat)
    requires Consistent(refs) && i < |refs| && j < |refs| && refs[i].stableId == refs[j].stableId
    ensures SameProducer(refs[i], refs[j])
  {
    SameAsFirst(refs, i);
    SameAsFirst(refs, j);
  }

  lemma SameAsFirst(refs: seq<Reference>, i: nat)
    requires Consistent(refs) && i < |refs|
    ensures Bound(refs, refs[i].stableId).Some? && SameProducer(Bound(refs, refs[i].stableId).value, refs[i])
  {
    hide Bound;
    assert AgreesAt(refs, i);
    BoundUpTo(refs, i);
  }

  lemma BoundUpTo(refs: seq<Reference>, i: nat)
    requires i < |refs|
    ensures var id := refs[i].stableId;
            Bound(refs, id) == if Bound(refs[..i], id).Some? then Bound(refs[..i], id) else Some(refs[i])
  {
    var a, b := refs[..i], refs[i..];
    BoundAppend(a, b, refs[i].stableId);
    BoundFirst(b);
    hide Bound;
    assert refs == a + b && b[0] == refs[i];
  }

  lemma BoundFirst(refs: seq<Reference>)
    requires refs != []
    ensures Bound(refs, refs[0].stableId) == Some(refs[0])
  {}
}
