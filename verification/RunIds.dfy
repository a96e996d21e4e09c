/** The identifier of a run stands for all of it: for its policy and its captures, byte for byte, for the
    implementation that made it, and so for every file that it writes. */
module RunIds {
  import opened Outcomes
  import opened Json
  import opened CanonicalJson
  import opened Fields
  import opened RunFiles
  import opened Engine
  import opened Verifier
  import Lineage
  import Replay

  lemma RunMembersAreNormal(policyId: string, capture: string, ids: seq<string>, captures: seq<string>, bundle: Value)
    requires bundle.Str?
    ensures var m := RunMembers(policyId, capture, ids, captures, bundle);
      DistinctKeys(m) && WellFormed(Obj(m)) && IsNormal(Sorted(Obj(m)))
  {
    var m := RunMembers(policyId, capture, ids, captures, bundle);
    TaggedKeysDiffer(m, "sppaci", [6, 13, 21, 14, 15, 21]);
    hide DistinctKeys, IsNormal, Sorted;
    assert IsScalarList(m[3].value) && IsScalarList(m[4].value);
    MembersAreNormal(m);
  }

  lemma RunFields(policyId: string, capture: string, ids: seq<string>, captures: seq<string>, bundle: Value)
    requires bundle.Str?
    ensures var v := Sorted(Obj(RunMembers(policyId, capture, ids, captures, bundle)));
      && Field(v, "policy_capture_sha256") == Str(capture) && Field(v, "capture_sha256s") == Arr(Strs(captures))
      && Field(v, "action_sha256s") == Arr(Strs(ids)) && Field(v, "policy_sha256") == Str(policyId)
      && Field(v, "implementation_sha256") == bundle
  {
    var m := RunMembers(policyId, capture, ids, captures, bundle);
    RunMembersAreNormal(policyId, capture, ids, captures, bundle);
    StringsRoundTrip(ids);
    StringsRoundTrip(captures);
    hide DistinctKeys, Field, IsNormal, Strs, SortedItems;
    FieldOf(m, 1);
    FieldOf(m, 2);
    FieldOf(m, 3);
    FieldOf(m, 4);
    FieldOf(m, 5);
  }

  /** What the identifier of a run is the digest of. */
  ghost function RunPreimage(k: Kernel, rawPolicy: string, raws: seq<string>, bundle: Value, policyId: string, ids: seq<string>): string {
    Preimage("HERESY-SEC/RUN/v1", Obj(RunMembers(policyId, k.digester.sha(rawPolicy), ids, Captures(k, raws), bundle)))
  }

  lemma RunIsFixed(k: Kernel, rawPolicy: string, raws: seq<string>, bundle: Value, policyId: string, ids: seq<string>,
    otherPolicy: string, others: seq<string>, otherBundle: Value, otherId: string, otherIds: seq<string>)
    requires bundle.Str? && otherBundle.Str?
    requires RunPreimage(k, rawPolicy, raws, bundle, policyId, ids)
      == RunPreimage(k, otherPolicy, others, otherBundle, otherId, otherIds)
    ensures policyId == otherId && ids == otherIds && bundle == otherBundle
    ensures k.digester.sha(rawPolicy) == k.digester.sha(otherPolicy) && Captures(k, raws) == Captures(k, others)
  {
    var a := RunMembers(policyId, k.digester.sha(rawPolicy), ids, Captures(k, raws), bundle);
    var b := RunMembers(otherId, k.digester.sha(otherPolicy), otherIds, Captures(k, others), otherBundle);
    hide Preimage, DistinctKeys, IsNormal, WellFormed, Sorted, Field, RunMembers, Strs, Captures;
    RunMembersAreNormal(policyId, k.digester.sha(rawPolicy), ids, Captures(k, raws), bundle);
    RunMembersAreNormal(otherId, k.digester.sha(otherPolicy), otherIds, Captures(k, others), otherBundle);
    Lineage.SameCore("HERESY-SEC/RUN/v1", a, b);
    RunFields(policyId, k.digester.sha(rawPolicy), ids, Captures(k, raws), bundle);
    RunFields(otherId, k.digester.sha(otherPolicy), otherIds, Captures(k, others), otherBundle);
    StringsRoundTrip(ids);
    StringsRoundTrip(otherIds);
    StringsRoundTrip(Captures(k, raws));
    StringsRoundTrip(Captures(k, others));
  }

  /** What the identifier of this run is the digest of. */
  ghost function PreimageOf(k: Kernel, rawPolicy: string, raws: seq<string>, current: Value, run: Run): string
    requires Execute(k, rawPolicy, raws, current) == Success(run)
  {
    RunHasIdentities(k, rawPolicy, raws, current, run);
    RunPreimage(k, rawPolicy, raws, Bundle(current), PolicyIdentity(k, run.policy).value,
      Identities(k, NormalizeActions(k, raws).value).value)
  }

  lemma RunHasIdentities(k: Kernel, rawPolicy: string, raws: seq<string>, current: Value, run: Run)
    requires Execute(k, rawPolicy, raws, current) == Success(run)
    ensures PolicyIdentity(k, run.policy).Success? && NormalizeActions(k, raws).Success?
    ensures Identities(k, NormalizeActions(k, raws).value).Success?
    ensures run.runId == k.digester.sha(RunPreimage(k, rawPolicy, raws, Bundle(current), PolicyIdentity(k, run.policy).value,
      Identities(k, NormalizeActions(k, raws).value).value))
  {
    ExecutedParts(k, rawPolicy, raws, current);
    hide Execute, NormalizeAll, NormalizeActions, RecordsUpTo, Summary, Artifacts, Captures, RunMembers, Preimage,
      PolicyIdentity, Identities, Read, Bundle;
  }

  /** SHA-256 does not collide on the two policies, on their captures and on what the identifiers stand for. */
  ghost predicate RunsDoNotCollide(k: Kernel, rawPolicy: string, raws: seq<string>, current: Value, run: Run,
    otherPolicy: string, others: seq<string>, other: Value, second: Run)
    requires Execute(k, rawPolicy, raws, current) == Success(run)
    requires Execute(k, otherPolicy, others, other) == Success(second)
  {
    && Lineage.TellsApart(k.digester.sha, PreimageOf(k, rawPolicy, raws, current, run),
      PreimageOf(k, otherPolicy, others, other, second))
    && Lineage.TellsApart(k.digester.sha, rawPolicy, otherPolicy)
    && forall i, j | 0 <= i < |raws| && 0 <= j < |others| :: Lineage.TellsApart(k.digester.sha, raws[i], others[j])
  }

  lemma SameCaptures(k: Kernel, raws: seq<string>, others: seq<string>)
    requires Captures(k, raws) == Captures(k, others)
    requires forall i, j | 0 <= i < |raws| && 0 <= j < |others| :: Lineage.TellsApart(k.digester.sha, raws[i], others[j])
    ensures raws == others
  {
    assert |raws| == |Captures(k, raws)| == |others|;
    forall i | 0 <= i < |raws| ensures raws[i] == others[i] {
      assert Captures(k, raws)[i] == k.digester.sha(raws[i]) && Captures(k, others)[i] == k.digester.sha(others[i]);
      assert Lineage.TellsApart(k.digester.sha, raws[i], others[i]);
    }
  }

  /** Runs with one identifier have the same policy and captures, and were made by the same bundle. */
  lemma RunIdFixesInputs(k: Kernel, rawPolicy: string, raws: seq<string>, current: Value, run: Run,
    otherPolicy: string, others: seq<string>, other: Value, second: Run)
    requires Execute(k, rawPolicy, raws, current) == Success(run) && Bundle(current).Str?
    requires Execute(k, otherPolicy, others, other) == Success(second) && Bundle(other).Str?
    requires RunsDoNotCollide(k, rawPolicy, raws, current, run, otherPolicy, others, other, second)
    requires run.runId == second.runId
    ensures rawPolicy == otherPolicy && raws == others && Bundle(current) == Bundle(other)
  {
    hide Execute, NormalizeActions, RunPreimage, PolicyIdentity, Identities, Bundle;
    RunHasIdentities(k, rawPolicy, raws, current, run);
    RunHasIdentities(k, otherPolicy, others, other, second);
    RunIsFixed(k, rawPolicy, raws, Bundle(current), PolicyIdentity(k, run.policy).value,
      Identities(k, NormalizeActions(k, raws).value).value, otherPolicy, others, Bundle(other),
      PolicyIdentity(k, second.policy).value, Identities(k, NormalizeActions(k, others).value).value);
    SameCaptures(k, raws, others);
  }

  /** And so they are the same run: policy, records, geometry, summary and every file. */
  lemma RunIdFixesRun(k: Kernel, rawPolicy: string, raws: seq<string>, current: Value, run: Run,
    otherPolicy: string, others: seq<string>, other: Value, second: Run)
    requires Execute(k, rawPolicy, raws, current) == Success(run) && Execute(k, otherPolicy, others, other) == Success(second)
    requires IsNormal(current) && NormalizeImplementation(k, current) == Success(current)
    requires IsNormal(other) && NormalizeImplementation(k, other) == Success(other)
    requires RunsDoNotCollide(k, rawPolicy, raws, current, run, otherPolicy, others, other, second)
    requires Replay.DoNotCollide(k.digester.sha, current, other)
    ensures run.runId == second.runId <==> rawPolicy == otherPolicy && raws == others && current == other
    ensures run.runId == second.runId ==> run == second
  {
    hide Execute, RunsDoNotCollide, IsNormal, Replay.DoNotCollide;
    if run.runId == second.runId {
      RunIdFixesInputs(k, rawPolicy, raws, current, run, otherPolicy, others, other, second);
      Replay.BundleFixesImplementation(k, current, other);
    }
  }
}
