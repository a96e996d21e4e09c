/** Streams of decided actions, and the chain of geometry receipts. */
module Receipts {
  import opened Graphs
  import opened Effects
  import opened Actions
  import opened Registry
  import opened Verdicts

  /** The classical part of a run: actions, the effects of their decisions, digests of their receipts. */
  datatype Stream = Stream(actions: seq<Action>, effects: seq<Effect>, receipts: seq<Digest>) {
    ghost predicate Valid() {
      IsStream(actions) && |effects| == |actions| && |receipts| == |actions|
    }

    function Part(start: nat, stop: nat): Window
      requires start <= stop <= |actions| == |effects|
    {
      Window(actions[start..stop], effects[start..stop])
    }
  }

  lemma PartIsValid(s: Stream, start: nat, stop: nat)
    requires s.Valid() && start <= stop <= |s.actions|
    ensures s.Part(start, stop).Valid() && |s.Part(start, stop).actions| == stop - start
  {
  }

  lemma PartDoesNotCollide(s: Stream, start: nat, stop: nat, h: Digests)
    requires start <= stop <= |s.actions| == |s.effects| && EdgesDoNotCollide(h, s.actions)
    ensures EdgesDoNotCollide(h, s.Part(start, stop).actions)
  {
    hide CoreOf;
    forall a | a in s.actions[start..stop] ensures a in s.actions {
    }
  }

  /** A geometry receipt with all that its digest commits to.  The source nests digests: the receipt
      holds those of the commitment, the decision and the evidence, and these hold those of the
      analysed parts of the window and of its actions and decisions.  Here the parts stand for
      their digests. */
  datatype Receipt<P> = Receipt(index: nat, firstSequence: nat, lastSequence: nat, parts: P, verdict: Verdict,
    head: Digest, previous: Digest)

  function ReceiptOf<P>(index: nat, w: Window, parts: P, verdict: Verdict, head: Digest, previous: Digest): Receipt<P>
    requires w.actions != []
  {
    Receipt(index, w.actions[0].sequence, w.actions[|w.actions| - 1].sequence, parts, verdict, head, previous)
  }

  /** A log of receipts that starts from the zero digest and counts its windows. */
  ghost predicate IsLog<P>(log: seq<Receipt<P>>, digest: Receipt<P> -> Digest, zero: Digest) {
    forall i :: 0 <= i < |log| ==>
      log[i].index == i && log[i].previous == Before(log, digest, zero, i)
  }

  function Before<P>(log: seq<Receipt<P>>, digest: Receipt<P> -> Digest, zero: Digest, i: nat): Digest
    requires i < |log|
  {
    if i == 0 then zero else digest(log[i - 1])
  }

  /** No receipt of the one log collides with one of the other. */
  ghost predicate DoNotCollide<P>(digest: Receipt<P> -> Digest, a: seq<Receipt<P>>, b: seq<Receipt<P>>) {
    forall i, j | 0 <= i < |a| && 0 <= j < |b| :: digest(a[i]) == digest(b[j]) ==> a[i] == b[j]
  }

  lemma LogEntry<P>(log: seq<Receipt<P>>, digest: Receipt<P> -> Digest, zero: Digest, i: nat)
    requires IsLog(log, digest, zero) && i < |log|
    ensures log[i].index == i && log[i].previous == if i == 0 then zero else digest(log[i - 1])
  {
  }

  /** The head of a log fixes all of it: with digests that do not collide, two logs with the same
      last digest are the same log. */
  lemma {:induction false} HeadFixesLog<P>(a: seq<Receipt<P>>, b: seq<Receipt<P>>, digest: Receipt<P> -> Digest,
    zero: Digest)
    requires IsLog(a, digest, zero) && IsLog(b, digest, zero) && a != [] && b != []
    requires DoNotCollide(digest, a, b)
    requires digest(a[|a| - 1]) == digest(b[|b| - 1])
    ensures a == b
  {
    hide IsLog;
    var n := |a| - 1;
    assert a[n] == b[|b| - 1];
    LogEntry(a, digest, zero, n);
    LogEntry(b, digest, zero, |b| - 1);
    assert |b| == n + 1;
    assert a == a[..n] + [a[n]] && b == b[..n] + [b[n]];
    if n > 0 {
      LogPrefix(a, digest, zero, n);
      LogPrefix(b, digest, zero, n);
      HeadFixesLog(a[..n], b[..n], digest, zero);
    }
  }

  lemma LogPrefix<P>(log: seq<Receipt<P>>, digest: Receipt<P> -> Digest, zero: Digest, n: nat)
    requires IsLog(log, digest, zero) && n <= |log|
    ensures IsLog(log[..n], digest, zero)
  {
    forall i | 0 <= i < n
      ensures log[..n][i].index == i && log[..n][i].previous == Before(log[..n], digest, zero, i)
    {
      assert Before(log, digest, zero, i) == Before(log[..n], digest, zero, i);
    }
  }
}
