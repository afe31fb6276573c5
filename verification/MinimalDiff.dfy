/** A reseal against the write gate's diff: what the gate reports of a re-sealed bundle. */
module MinimalDiff {
  import opened Wrappers
  import opened Text
  import opened SortedKeys
  import opened Crypto
  import opened Bundles
  import opened Sealing
  import opened Authz

  predicate Resolves(s: SealRun, slot: Slot) {
    slot.0 in s.resolved && slot.1 in s.resolved[slot.0]
  }

  predicate Had(prior: Envs, slot: Slot) {
    slot in Slots(prior)
  }

  /** The keys newly resolved. */
  function AddedBy(s: SealRun, prior: Envs): set<EntryChange> {
    set env, key | env in s.resolved && key in s.resolved[env] && !Had(prior, (env, key)) :: EntryChange("", env, key, Added)
  }

  /** The keys of a resolved env that are no longer resolved. */
  function DroppedBy(s: SealRun, prior: Envs): set<EntryChange> {
    set slot | slot in Slots(prior) && slot.0 in s.resolved && !Resolves(s, slot) :: EntryChange("", slot.0, slot.1, Removed)
  }

  /** The keys kept in name but not carried, whose fresh ciphertext is another text. */
  function RewrittenBy(age: Age, s: SealRun, carried: map<string, Entries>, prior: Envs): set<EntryChange>
    requires CanSeal(age, s, carried)
  {
    set slot | slot in Slots(prior) && Resolves(s, slot)
               && SealedEntry(age, s, carried, slot.0, slot.1) != prior[slot.0].entries[slot.1]
            :: EntryChange("", slot.0, slot.1, Changed)
  }

  lemma SealedAt(age: Age, s: SealRun, carried: map<string, Entries>, prior: Envs, slot: Slot)
    requires CanSeal(age, s, carried)
    ensures At(SealedEnvs(age, s, carried, prior), slot)
         == if slot.0 in s.resolved
            then (if Resolves(s, slot) then Some(SealedEntry(age, s, carried, slot.0, slot.1)) else None)
            else At(prior, slot)
  {
  }

  function SealDiff(age: Age, s: SealRun, carried: map<string, Entries>, prior: Envs): set<EntryChange>
    requires CanSeal(age, s, carried)
  {
    DiffSet(prior, SealedEnvs(age, s, carried, prior))
  }

  function Parts(age: Age, s: SealRun, carried: map<string, Entries>, prior: Envs): set<EntryChange>
    requires CanSeal(age, s, carried)
  {
    AddedBy(s, prior) + DroppedBy(s, prior) + RewrittenBy(age, s, carried, prior)
  }

  lemma DiffInParts(age: Age, s: SealRun, carried: map<string, Entries>, prior: Envs, c: EntryChange)
    requires CanSeal(age, s, carried) && c in SealDiff(age, s, carried, prior)
    ensures c in Parts(age, s, carried, prior)
  {
    var after := SealedEnvs(age, s, carried, prior);
    var slot :| slot in Slots(prior) + Slots(after) && At(prior, slot) != At(after, slot) && c == ChangeAt(prior, after, slot);
    SealedAt(age, s, carried, prior, slot);
  }

  lemma PartsInDiff(age: Age, s: SealRun, carried: map<string, Entries>, prior: Envs, c: EntryChange)
    requires CanSeal(age, s, carried) && c in Parts(age, s, carried, prior)
    ensures c in SealDiff(age, s, carried, prior)
  {
    var after := SealedEnvs(age, s, carried, prior);
    var slot := (c.env, c.key);
    SealedAt(age, s, carried, prior, slot);
    assert c == ChangeAt(prior, after, slot) && slot in Slots(prior) + Slots(after);
  }

  /** Whatever is carried, the diff of a seal against its prior is exactly these three parts. */
  lemma SealDiffIs(age: Age, s: SealRun, carried: map<string, Entries>, prior: Envs)
    requires CanSeal(age, s, carried)
    ensures SealDiff(age, s, carried, prior) == Parts(age, s, carried, prior)
  {
    forall c ensures c in SealDiff(age, s, carried, prior) <==> c in Parts(age, s, carried, prior) {
      if c in SealDiff(age, s, carried, prior) { DiffInParts(age, s, carried, prior, c); }
      if c in Parts(age, s, carried, prior) { PartsInDiff(age, s, carried, prior, c); }
    }
  }

  /** Every shared key of a resolved env is carried from the prior section. */
  predicate CarriesAll(s: SealRun, carried: map<string, Entries>, prior: Envs) {
    forall slot :: slot in Slots(prior) && Resolves(s, slot) ==>
      slot.0 in carried && Get(carried[slot.0], slot.1) == At(prior, slot)
  }

  /** A reseal of a v4 prior never rewrites: the gate sees exactly the added and the dropped keys. */
  lemma ResealV4Minimal(age: Age, f: File, s: SealRun)
    requires SealV4(age, f, s).Some?
    ensures SealDiff(age, s, AllEntries(PriorV4(f)), PriorV4(f))
         == AddedBy(s, PriorV4(f)) + DroppedBy(s, PriorV4(f))
  {
    CarriedMinimal(age, s, AllEntries(PriorV4(f)), PriorV4(f));
  }

  lemma CarriedMinimal(age: Age, s: SealRun, carried: map<string, Entries>, prior: Envs)
    requires CanSeal(age, s, carried) && CarriesAll(s, carried, prior)
    ensures SealDiff(age, s, carried, prior) == AddedBy(s, prior) + DroppedBy(s, prior)
  {
    SealDiffIs(age, s, carried, prior);
    assert RewrittenBy(age, s, carried, prior) == {};
  }

  /** The prior's cluster labels agree with the map for every env that shares a key with the matrix. */
  predicate LabelsMatch(s: SealRun, envCluster: map<string, string>, prior: Envs) {
    forall slot :: slot in Slots(prior) && Resolves(s, slot) ==> SameCluster(prior, envCluster, slot.0)
  }

  /** Fresh randomness: no ciphertext sealed in this run is one the prior already stores. */
  predicate FreshTexts(age: Age, s: SealRun, prior: Envs) {
    forall slot :: slot in Slots(prior) && Resolves(s, slot) && slot.0 in s.recipient ==>
      FreshEntry(age, s, slot.0, slot.1, s.resolved[slot.0][slot.1]) != Ok(prior[slot.0].entries[slot.1])
  }

  /** A reseal of a numeric prior is minimal exactly when its labels match; a v3 prior has none, so it
      always is. */
  lemma ResealV2Minimal(age: Age, f: File, envCluster: map<string, string>, projectID: int64, s: SealRun)
    requires SealV2(age, f, envCluster, projectID, s).Some?
    requires FreshTexts(age, s, PriorV2(f, projectID).value)
    ensures var prior := PriorV2(f, projectID).value;
      && (SealDiff(age, s, CarriedV2(prior, envCluster), prior) == AddedBy(s, prior) + DroppedBy(s, prior)
          <==> LabelsMatch(s, envCluster, prior))
      && ((forall env :: env in prior ==> prior[env].cluster == "") ==> LabelsMatch(s, envCluster, prior))
  {
    NumericMinimal(age, s, envCluster, PriorV2(f, projectID).value);
  }

  lemma MismatchRewrites(age: Age, s: SealRun, envCluster: map<string, string>, prior: Envs, slot: Slot)
    requires CanSeal(age, s, CarriedV2(prior, envCluster)) && FreshTexts(age, s, prior)
    requires slot in Slots(prior) && Resolves(s, slot) && !SameCluster(prior, envCluster, slot.0)
    ensures EntryChange("", slot.0, slot.1, Changed) in RewrittenBy(age, s, CarriedV2(prior, envCluster), prior)
  {
    assert CanSealEnv(age, s, CarriedV2(prior, envCluster), slot.0);
  }

  lemma NumericMinimal(age: Age, s: SealRun, envCluster: map<string, string>, prior: Envs)
    requires CanSeal(age, s, CarriedV2(prior, envCluster)) && FreshTexts(age, s, prior)
    ensures SealDiff(age, s, CarriedV2(prior, envCluster), prior) == AddedBy(s, prior) + DroppedBy(s, prior)
       <==> LabelsMatch(s, envCluster, prior)
  {
    hide SealDiff, SealedEntry, FreshEntry, CanSealEnv;
    var carried := CarriedV2(prior, envCluster);
    if LabelsMatch(s, envCluster, prior) {
      CarriedMinimal(age, s, carried, prior);
    } else {
      var slot :| slot in Slots(prior) && Resolves(s, slot) && !SameCluster(prior, envCluster, slot.0);
      var c := EntryChange("", slot.0, slot.1, Changed);
      MismatchRewrites(age, s, envCluster, prior, slot);
      PartsInDiff(age, s, carried, prior, c);
      assert c !in AddedBy(s, prior) + DroppedBy(s, prior);
    }
  }

  /** The name diff a seal command returns agrees with the gate's diff, env by env. */
  lemma NameDiffAgrees(age: Age, s: SealRun, carried: map<string, Entries>, prior: Envs, env: string, key: string)
    requires CanSeal(age, s, carried) && env in s.resolved
    ensures var d := SealDiffs(s, prior)[env];
      var changes := SealDiff(age, s, carried, prior);
      && (key in d.added <==> EntryChange("", env, key, Added) in changes)
      && (key in d.removed <==> EntryChange("", env, key, Removed) in changes)
      && (EntryChange("", env, key, Changed) in changes ==> key in d.kept)
      && (key in d.kept ==> key in EntriesOf(prior, env) && key in s.resolved[env])
  {
    SealDiffIs(age, s, carried, prior);
    var d := SealDiffs(s, prior)[env];
    assert key in d.added <==> key in Elements(d.added);
    assert key in d.removed <==> key in Elements(d.removed);
    assert key in d.kept <==> key in Elements(d.kept);
    assert Had(prior, (env, key)) <==> key in EntriesOf(prior, env);
  }
}
