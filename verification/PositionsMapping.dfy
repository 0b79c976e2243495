/** The positions-mapping document against the scorecard that binds it: arms PMD-1 to PMD-7 of
    `check_positions_mapping_document`. The digest of the document's bytes is an argument. */
module PositionsMapping {
  import opened Basics
  import opened Versions
  import opened Scorecard
  import ScorecardArms
  import ScorecardTheorems

  datatype Entry = Entry(topic: string, partition: U32, kind: string, targetTopic: Option<string>,
                         targetOffset: Option<int>, skipped: Option<U64>, reason: Option<string>)

  datatype Group = Group(entries: seq<Entry>, reason: Option<string>)

  datatype Mapping = Mapping(formatVersion: string, runId: string, rule: string, groups: map<string, Group>)

  datatype Arm = NoBlock | PMD1 | PMD2 | PMD3 | PMD4 | PMD5 | PMD6 | PMD7

  // ---- the reasons -------------------------------------------------------------------------

  const NOT_CAPTURED: string := "NotCaptured"
  const NOT_CAPTURED_BECAUSE: string := NOT_CAPTURED + ": "
  const NOT_RESTORED: string := "PartitionNotRestored"

  predicate IsClosedReason(reason: string) {
    reason == "TransactionalArchive" || reason == "ArchiveGap" || reason == NOT_RESTORED || reason == "NoArchivedData"
    || reason == "BeforeLogStart" || reason == "BeforeArchive" || reason == "BeyondArchive"
    || reason == "PositionBeyondEnd"
  }

  predicate IsUnavailableReason(reason: string) {
    IsClosedReason(reason) || (NOT_CAPTURED_BECAUSE <= reason && |reason| > |NOT_CAPTURED_BECAUSE|)
  }

  /** No reason of the closed set begins as one of a group that was not captured. */
  lemma NotCapturedReasons(reason: string)
    ensures IsUnavailableReason(reason) && NOT_CAPTURED <= reason <==>
            exists why: string :: why != "" && reason == NOT_CAPTURED_BECAUSE + why
  {
    if IsUnavailableReason(reason) && NOT_CAPTURED <= reason {
      assert reason[0] == 'N' && reason[2] == 't';
      assert !IsClosedReason(reason);
      assert reason == NOT_CAPTURED_BECAUSE + reason[|NOT_CAPTURED_BECAUSE|..];
    }
    if why: string :| why != "" && reason == NOT_CAPTURED_BECAUSE + why {
      assert NOT_CAPTURED <= NOT_CAPTURED_BECAUSE <= reason;
    }
  }

  // ---- counting the entries -----------------------------------------------------------------

  datatype Tally = Tally(exact: nat, approximate: nat, unavailable: nat) {
    function Total(): nat { exact + approximate + unavailable }

    function Plus(other: Tally): Tally {
      Tally(exact + other.exact, approximate + other.approximate, unavailable + other.unavailable)
    }

    /** One more entry; a class that is not one of the three counts as unavailable. */
    function With(e: Entry): Tally {
      if e.kind == "exact" then this.(exact := exact + 1)
      else if e.kind == "approximate" then this.(approximate := approximate + 1)
      else this.(unavailable := unavailable + 1)
    }
  }

  const NO_ENTRIES: Tally := Tally(0, 0, 0)

  function TallyOf(entries: seq<Entry>): Tally {
    if entries == [] then NO_ENTRIES else TallyOf(entries[..|entries| - 1]).With(entries[|entries| - 1])
  }

  /** Over the groups of some ids. */
  function TallyOver(groups: map<string, Group>, ids: set<string>): Tally
    requires ids <= groups.Keys
    decreases |ids|
  {
    if ids == {} then NO_ENTRIES
    else TallyOver(groups, ids - {Least(ids)}).Plus(TallyOf(groups[Least(ids)].entries))
  }

  lemma NoGroups(groups: map<string, Group>)
    ensures TallyOver(groups, {}) == NO_ENTRIES
  {
  }

  /** Any group may be counted last. */
  lemma {:induction false} TallyInAnyOrder(groups: map<string, Group>, ids: set<string>, id: string)
    requires ids <= groups.Keys && id in ids
    ensures TallyOver(groups, ids) == TallyOver(groups, ids - {id}).Plus(TallyOf(groups[id].entries))
    decreases |ids|
  {
    var least := Least(ids);
    if id != least {
      TallyInAnyOrder(groups, ids - {least}, id);
      assert ids - {least} - {id} == ids - {id} - {least};
      assert Least(ids - {id}) == least by { LeastIsUnique(Least(ids - {id}), least, ids - {id}); }
    }
  }

  lemma {:induction false} TallyCountsEach(entries: seq<Entry>)
    ensures TallyOf(entries).Total() == |entries|
  {
    if entries != [] { TallyCountsEach(entries[..|entries| - 1]); }
  }

  function EntriesOver(groups: map<string, Group>, ids: set<string>): nat
    requires ids <= groups.Keys
    decreases |ids|
  {
    if ids == {} then 0 else EntriesOver(groups, ids - {Least(ids)}) + |groups[Least(ids)].entries|
  }

  lemma {:induction false} TallyCountsAll(groups: map<string, Group>, ids: set<string>)
    requires ids <= groups.Keys
    ensures TallyOver(groups, ids).Total() == EntriesOver(groups, ids)
    decreases |ids|
  {
    if ids != {} {
      TallyCountsAll(groups, ids - {Least(ids)});
      TallyCountsEach(groups[Least(ids)].entries);
    }
  }

  /** The entries of a class, by group and index. */
  function OfClass(groups: map<string, Group>, ids: set<string>, kind: string): set<(string, int)>
    requires ids <= groups.Keys
  {
    set id, i | id in ids && 0 <= i < |groups[id].entries| && groups[id].entries[i].kind == kind :: (id, i)
  }

  function InGroup(id: string, entries: seq<Entry>, kind: string): set<(string, int)> {
    set i | 0 <= i < |entries| && entries[i].kind == kind :: (id, i)
  }

  predicate IsClass(kind: string) { kind == "exact" || kind == "approximate" || kind == "unavailable" }

  /** A tally's count for one of the three classes. */
  function InClass(t: Tally, kind: string): nat {
    if kind == "exact" then t.exact else if kind == "approximate" then t.approximate else t.unavailable
  }

  lemma {:induction false} TallyIsTheClasses(id: string, entries: seq<Entry>, kind: string)
    requires IsClass(kind) && forall i :: 0 <= i < |entries| ==> IsClass(entries[i].kind)
    ensures InClass(TallyOf(entries), kind) == |InGroup(id, entries, kind)|
  {
    hide IsClass, InClass, InGroup;
    if entries == [] {
      NoneInGroup(id, kind);
    } else {
      var n := |entries| - 1;
      TallyIsTheClasses(id, entries[..n], kind);
      OneMoreInGroup(id, entries, kind);
      OneMoreInClass(TallyOf(entries[..n]), entries[n], kind);
    }
  }

  lemma NoneInGroup(id: string, kind: string)
    ensures InGroup(id, [], kind) == {} && InClass(NO_ENTRIES, kind) == 0
  {
  }

  lemma OneMoreInGroup(id: string, entries: seq<Entry>, kind: string)
    requires entries != []
    ensures var n := |entries| - 1;
      |InGroup(id, entries, kind)| == |InGroup(id, entries[..n], kind)| + if entries[n].kind == kind then 1 else 0
  {
    var n := |entries| - 1;
    var before := InGroup(id, entries[..n], kind);
    assert (id, n) !in before;
    assert InGroup(id, entries, kind) == before + if entries[n].kind == kind then {(id, n)} else {};
  }

  lemma OneMoreInClass(t: Tally, e: Entry, kind: string)
    requires IsClass(kind) && IsClass(e.kind)
    ensures InClass(t.With(e), kind) == InClass(t, kind) + if e.kind == kind then 1 else 0
  {
  }

  lemma {:induction false} TallyOverIsTheClasses(groups: map<string, Group>, ids: set<string>, kind: string)
    requires ids <= groups.Keys && IsClass(kind)
    requires forall id, i :: id in ids && 0 <= i < |groups[id].entries| ==> IsClass(groups[id].entries[i].kind)
    ensures InClass(TallyOver(groups, ids), kind) == |OfClass(groups, ids, kind)|
    decreases |ids|
  {
    hide IsClass, OfClass, InGroup, TallyOf;
    if ids == {} {
      NoneOfClass(groups, kind);
    } else {
      var id := Least(ids);
      TallyOverIsTheClasses(groups, ids - {id}, kind);
      TallyIsTheClasses(id, groups[id].entries, kind);
      OneMoreGroup(groups, ids, id, kind);
    }
  }

  lemma NoneOfClass(groups: map<string, Group>, kind: string)
    ensures OfClass(groups, {}, kind) == {}
  {
  }

  lemma OneMoreGroup(groups: map<string, Group>, ids: set<string>, id: string, kind: string)
    requires ids <= groups.Keys && id in ids
    ensures |OfClass(groups, ids, kind)| == |OfClass(groups, ids - {id}, kind)|
            + |InGroup(id, groups[id].entries, kind)|
  {
    var rest, here := OfClass(groups, ids - {id}, kind), InGroup(id, groups[id].entries, kind);
    assert OfClass(groups, ids, kind) == rest + here;
    assert rest !! here;
  }

  /** Arm PMD-4's counts: every entry of every group, in whatever order the groups come. */
  method CountEntries(groups: map<string, Group>) returns (counts: Tally)
    ensures counts == TallyOver(groups, groups.Keys)
  {
    hide TallyOver, Least;
    NoGroups(groups);
    counts := NO_ENTRIES;
    var left := groups.Keys;
    ghost var done: set<string> := {};
    while left != {}
      invariant left <= groups.Keys && done == groups.Keys - left
      invariant counts == TallyOver(groups, done)
      decreases |left|
    {
      var id :| id in left;
      var entries := groups[id].entries;
      ghost var before := counts;
      for i := 0 to |entries|
        invariant counts == before.Plus(TallyOf(entries[..i]))
      {
        assert entries[..i + 1][..i] == entries[..i];
        counts := counts.With(entries[i]);
      }
      assert entries[..|entries|] == entries;
      TallyInAnyOrder(groups, done + {id}, id);
      assert done + {id} - {id} == done;
      left := left - {id};
      done := done + {id};
    }
    assert done == groups.Keys;
  }

  // ---- the partitions the scorecard verified ---------------------------------------------------

  /** The restored topic of the last listed partition of a topic and number. */
  function RestoredAt(partitions: seq<Partition>, topic: string, partition: int): Option<string> {
    if partitions == [] then None
    else
      var last := partitions[|partitions| - 1];
      if last.topic == topic && last.partition == partition then Some(last.targetTopic)
      else RestoredAt(partitions[..|partitions| - 1], topic, partition)
  }

  lemma {:induction false} RestoredAtIsListed(partitions: seq<Partition>, topic: string, partition: int)
    ensures match RestoredAt(partitions, topic, partition) {
      case None =>
        forall i :: 0 <= i < |partitions| ==> !(partitions[i].topic == topic && partitions[i].partition == partition)
      case Some(target) =>
        exists i :: 0 <= i < |partitions| && partitions[i].topic == topic && partitions[i].partition == partition
                    && partitions[i].targetTopic == target
    }
  {
    if partitions != [] {
      RestoredAtIsListed(partitions[..|partitions| - 1], topic, partition);
    }
  }

  /** The dict `verified`: a later partition of the same topic and number replaces the earlier. */
  method VerifiedPartitions(partitions: seq<Partition>) returns (verified: map<(string, int), string>)
    ensures forall t, p :: RestoredAt(partitions, t, p) == if (t, p) in verified then Some(verified[(t, p)]) else None
  {
    verified := map[];
    for i := 0 to |partitions|
      invariant forall t, p ::
                  RestoredAt(partitions[..i], t, p) == if (t, p) in verified then Some(verified[(t, p)]) else None
    {
      assert partitions[..i + 1][..i] == partitions[..i];
      verified := verified[(partitions[i].topic, partitions[i].partition) := partitions[i].targetTopic];
    }
    assert partitions[..|partitions|] == partitions;
  }

  // ---- the arms of an entry and of a group -------------------------------------------------------

  const SELECTION_EXCLUDED: string := "selectionExcluded"

  /** Arm PMD-5. */
  predicate Fits(e: Entry) {
    match e.kind
    case "exact" => e.targetOffset.Some? && e.targetOffset.value >= 0 && e.skipped.None? && e.reason.None?
    case "approximate" =>
      e.targetOffset.Some? && e.targetOffset.value >= 0 && e.skipped.Some? && e.skipped.value >= 1
      && e.reason == Some(SELECTION_EXCLUDED)
    case "unavailable" =>
      e.targetOffset.None? && e.skipped.None? && e.reason.Some? && IsUnavailableReason(e.reason.value)
    case _ => false
  }

  /** Arm PMD-6, given where the scorecard restored the entry's partition. */
  predicate Lands(e: Entry, at: Option<string>) {
    if e.kind == "unavailable" then e.reason != Some(NOT_RESTORED) || at.None? else at.Some? && e.targetTopic == at
  }

  predicate NotCapturedHolds(g: Group) {
    g.reason.Some? ==> IsUnavailableReason(g.reason.value) && NOT_CAPTURED <= g.reason.value && g.entries == []
  }

  function EntryFault(e: Entry, partitions: seq<Partition>): Option<Arm> {
    if !Fits(e) then Some(PMD5)
    else if !Lands(e, RestoredAt(partitions, e.topic, e.partition)) then Some(PMD6)
    else None
  }

  function EntriesFault(entries: seq<Entry>, partitions: seq<Partition>): Option<Arm> {
    if entries == [] then None
    else if EntryFault(entries[0], partitions).Some? then EntryFault(entries[0], partitions)
    else EntriesFault(entries[1..], partitions)
  }

  function GroupFault(g: Group, partitions: seq<Partition>): Option<Arm> {
    if !NotCapturedHolds(g) then Some(PMD7) else EntriesFault(g.entries, partitions)
  }

  function GroupFaults(partitions: seq<Partition>): (string, Group) -> Option<Arm> {
    (id: string, g: Group) => GroupFault(g, partitions)
  }

  /** The block of the scorecard that binds a mapping. */
  function BlockOf(d: Scorecard): Option<PositionsMapping> {
    if d.integrity.verification.None? then None else d.integrity.verification.value.positionsMapping
  }

  const RULE: string := "firstTargetRecordAtOrAboveLineage"

  /** Arms PMD-1 to PMD-4, in order. */
  function BindingFault(d: Scorecard, digest: string, length: nat, m: Mapping, counts: Tally): Option<Arm> {
    if BlockOf(d).None? then Some(NoBlock)
    else
      var block := BlockOf(d).value;
      if block.document.None? then Some(PMD1)
      else if digest != block.document.value.sha256 || length != block.document.value.bytes then Some(PMD2)
      else if Fields(m.formatVersion)[0] != "1" || m.runId != d.runId || m.rule != RULE then Some(PMD3)
      else if counts != Tally(block.exact, block.approximate, block.unavailable) || |m.groups| != block.groups
      then Some(PMD4)
      else None
  }

  function Fault(d: Scorecard, digest: string, length: nat, m: Mapping): Option<Arm> {
    var binding := BindingFault(d, digest, length, m, TallyOver(m.groups, m.groups.Keys));
    if binding.Some? then binding
    else FirstInOrder(m.groups, GroupFaults(ScorecardArms.PartitionsOf(d.integrity.verification)))
  }

  /** The arms of one group: its reason, then its entries in order. */
  method CheckGroup(g: Group, verified: map<(string, int), string>, ghost partitions: seq<Partition>)
    returns (fault: Option<Arm>)
    requires forall t, p :: RestoredAt(partitions, t, p) == if (t, p) in verified then Some(verified[(t, p)]) else None
    ensures fault == GroupFault(g, partitions)
  {
    hide NotCapturedHolds, Fits, Lands, RestoredAt;
    if !NotCapturedHolds(g) { return Some(PMD7); }
    for j := 0 to |g.entries|
      invariant EntriesFault(g.entries, partitions) == EntriesFault(g.entries[j..], partitions)
    {
      var e := g.entries[j];
      assert g.entries[j..][0] == e && g.entries[j..][1..] == g.entries[j + 1..];
      if !Fits(e) { return Some(PMD5); }
      var key := (e.topic, e.partition as int);
      var at := if key in verified then Some(verified[key]) else None;
      assert at == RestoredAt(partitions, e.topic, e.partition);
      if !Lands(e, at) { return Some(PMD6); }
    }
    fault := None;
  }

  /** `check_positions_mapping_document`: None when the pair holds. */
  method CheckDocument(d: Scorecard, digest: string, length: nat, m: Mapping) returns (fault: Option<Arm>)
    ensures fault == Fault(d, digest, length, m)
  {
    hide GroupFault, TallyOver, BindingFault, RestoredAt, Sorted, Least, StrictlySorted;
    var counts := CountEntries(m.groups);
    fault := BindingFault(d, digest, length, m, counts);
    if fault.Some? { return; }
    ghost var partitions := ScorecardArms.PartitionsOf(d.integrity.verification);
    var verified := VerifiedPartitions(ScorecardArms.PartitionsOf(d.integrity.verification));
    var ids := Sorted(m.groups.Keys);
    for i := 0 to |ids|
      invariant First(m.groups, ids, GroupFaults(partitions)) == First(m.groups, ids[i..], GroupFaults(partitions))
    {
      var g := m.groups[ids[i]];
      assert ids[i..][0] == ids[i] && ids[i..][1..] == ids[i + 1..];
      fault := CheckGroup(g, verified, partitions);
      assert GroupFaults(partitions)(ids[i], g) == fault;
      if fault.Some? { return; }
    }
    fault := None;
  }

  // ---- what an accepted pair says ------------------------------------------------------------------

  lemma {:induction false} EntriesHold(entries: seq<Entry>, partitions: seq<Partition>)
    ensures EntriesFault(entries, partitions).None? <==>
            forall i :: 0 <= i < |entries| ==> EntryFault(entries[i], partitions).None?
  {
    hide EntryFault;
    if entries != [] {
      EntriesHold(entries[1..], partitions);
      assert forall i :: 1 <= i < |entries| ==> entries[i] == entries[1..][i - 1];
    }
  }

  /** The order the groups are read in decides nothing: a pair holds when every group and entry does. */
  lemma PairHolds(d: Scorecard, digest: string, length: nat, m: Mapping)
    ensures Fault(d, digest, length, m).None? <==>
            && BindingFault(d, digest, length, m, TallyOver(m.groups, m.groups.Keys)).None?
            && forall id :: id in m.groups ==>
                 && NotCapturedHolds(m.groups[id])
                 && forall i :: 0 <= i < |m.groups[id].entries| ==>
                      EntryFault(m.groups[id].entries[i], ScorecardArms.PartitionsOf(d.integrity.verification)).None?
  {
    hide BindingFault, EntryFault, NotCapturedHolds, TallyOver;
    var partitions := ScorecardArms.PartitionsOf(d.integrity.verification);
    NoFaultInOrder(m.groups, GroupFaults(partitions));
    forall id | id in m.groups
      ensures GroupFault(m.groups[id], partitions).None? <==>
              && NotCapturedHolds(m.groups[id])
              && forall i :: 0 <= i < |m.groups[id].entries| ==> EntryFault(m.groups[id].entries[i], partitions).None?
    {
      EntriesHold(m.groups[id].entries, partitions);
    }
  }

  /** Each of the block's three counts is the number of entries of its class, and every entry is of one of the three. */
  lemma CountsCoverEveryEntry(d: Scorecard, digest: string, length: nat, m: Mapping)
    requires Fault(d, digest, length, m).None?
    ensures BlockOf(d).Some? && BlockOf(d).value.groups == |m.groups|
    ensures BlockOf(d).value.exact == |OfClass(m.groups, m.groups.Keys, "exact")|
    ensures BlockOf(d).value.approximate == |OfClass(m.groups, m.groups.Keys, "approximate")|
    ensures BlockOf(d).value.unavailable == |OfClass(m.groups, m.groups.Keys, "unavailable")|
    ensures BlockOf(d).value.exact + BlockOf(d).value.approximate + BlockOf(d).value.unavailable
            == EntriesOver(m.groups, m.groups.Keys)
    ensures forall id, i :: id in m.groups && 0 <= i < |m.groups[id].entries| ==> IsClass(m.groups[id].entries[i].kind)
  {
    hide EntryFault, TallyOver, NotCapturedHolds, OfClass;
    hide BindingFault, EntriesOver;
    PairHolds(d, digest, length, m);
    CountsAreTheTally(d, digest, length, m, TallyOver(m.groups, m.groups.Keys));
    TallyCountsAll(m.groups, m.groups.Keys);
    forall id, i | id in m.groups && 0 <= i < |m.groups[id].entries| ensures IsClass(m.groups[id].entries[i].kind) {
      FitsIsOfAKind(m.groups[id].entries[i], ScorecardArms.PartitionsOf(d.integrity.verification));
    }
    TallyByClass(m.groups, m.groups.Keys);
  }

  lemma CountsAreTheTally(d: Scorecard, digest: string, length: nat, m: Mapping, counts: Tally)
    requires BindingFault(d, digest, length, m, counts).None?
    ensures BlockOf(d).Some? && BlockOf(d).value.groups == |m.groups|
    ensures counts == Tally(BlockOf(d).value.exact, BlockOf(d).value.approximate, BlockOf(d).value.unavailable)
  {
    hide Fields;
  }

  lemma TallyByClass(groups: map<string, Group>, ids: set<string>)
    requires ids <= groups.Keys
    requires forall id, i :: id in ids && 0 <= i < |groups[id].entries| ==> IsClass(groups[id].entries[i].kind)
    ensures TallyOver(groups, ids).exact == |OfClass(groups, ids, "exact")|
    ensures TallyOver(groups, ids).approximate == |OfClass(groups, ids, "approximate")|
    ensures TallyOver(groups, ids).unavailable == |OfClass(groups, ids, "unavailable")|
  {
    hide TallyOver, OfClass;
    assert IsClass("exact") && IsClass("approximate") && IsClass("unavailable");
    TallyOverIsTheClasses(groups, ids, "exact");
    TallyOverIsTheClasses(groups, ids, "approximate");
    TallyOverIsTheClasses(groups, ids, "unavailable");
  }

  lemma FitsIsOfAKind(e: Entry, partitions: seq<Partition>)
    requires EntryFault(e, partitions).None?
    ensures IsClass(e.kind)
  {
    hide IsUnavailableReason, Lands;
  }

  predicate IsPartitionOf(p: Partition, e: Entry) { p.topic == e.topic && p.partition == e.partition }

  /** A mapped entry names a partition of the block that was compared and replayed exactly, in its restored topic. */
  predicate LandsOnAnExactReplay(e: Entry, block: Complete) {
    exists i :: 0 <= i < |block.partitions| && IsPartitionOf(block.partitions[i], e) && block.partitions[i].compared
                && Exact(block.partitions[i].replay) && e.targetTopic == Some(block.partitions[i].targetTopic)
  }

  predicate IsNowhereIn(e: Entry, block: Complete) {
    forall i :: 0 <= i < |block.partitions| ==> !IsPartitionOf(block.partitions[i], e)
  }

  lemma AcceptedEntry(e: Entry, block: Complete)
    requires EntryFault(e, block.partitions).None? && ScorecardTheorems.IsCompletePass(block)
    ensures e.kind == "exact" || e.kind == "approximate" ==>
              LandsOnAnExactReplay(e, block) && e.targetOffset.Some? && e.targetOffset.value >= 0
    ensures e.kind == "unavailable" ==>
              e.targetOffset.None? && (e.reason == Some(NOT_RESTORED) ==> IsNowhereIn(e, block))
  {
    hide IsUnavailableReason;
    RestoredAtIsListed(block.partitions, e.topic, e.partition);
    if e.kind == "exact" || e.kind == "approximate" {
      var i :| 0 <= i < |block.partitions| && IsPartitionOf(block.partitions[i], e)
               && Some(block.partitions[i].targetTopic) == e.targetTopic;
      assert Exact(block.partitions[i].replay);
    }
  }

  /** An accepted scorecard and mapping: a mapped position lands in a partition that was restored exactly, and one said
      not to be restored is in none that was verified. */
  lemma MappedEntriesLand(d: Scorecard, digest: string, length: nat, m: Mapping)
    requires ScorecardArms.Accepted(d) && Fault(d, digest, length, m).None?
    ensures d.integrity.verification.Some? && d.integrity.verification.value.complete.Some?
    ensures var block := d.integrity.verification.value.complete.value;
      forall id, i :: id in m.groups && 0 <= i < |m.groups[id].entries| ==>
        var e := m.groups[id].entries[i];
        && (e.kind == "exact" || e.kind == "approximate" ==>
              LandsOnAnExactReplay(e, block) && e.targetOffset.Some? && e.targetOffset.value >= 0)
        && (e.kind == "unavailable" ==>
              e.targetOffset.None? && (e.reason == Some(NOT_RESTORED) ==> IsNowhereIn(e, block)))
    ensures forall id :: id in m.groups && m.groups[id].reason.Some? ==>
              m.groups[id].entries == []
              && exists why: string :: why != "" && m.groups[id].reason.value == NOT_CAPTURED_BECAUSE + why
  {
    hide EntryFault, Fault, IsUnavailableReason, TallyOver, LandsOnAnExactReplay, IsNowhereIn, ScorecardArms.Accepted,
         ScorecardTheorems.IsCompletePass, ScorecardTheorems.UnselectedAreEmpty;
    PairHolds(d, digest, length, m);
    MappingNeedsACompletePass(d);
    ScorecardTheorems.CompletePass(d);
    var block := d.integrity.verification.value.complete.value;
    forall id, i | id in m.groups && 0 <= i < |m.groups[id].entries|
      ensures var e := m.groups[id].entries[i];
        && (e.kind == "exact" || e.kind == "approximate" ==>
              LandsOnAnExactReplay(e, block) && e.targetOffset.Some? && e.targetOffset.value >= 0)
        && (e.kind == "unavailable" ==>
              e.targetOffset.None? && (e.reason == Some(NOT_RESTORED) ==> IsNowhereIn(e, block)))
    {
      AcceptedEntry(m.groups[id].entries[i], block);
    }
    forall id | id in m.groups && m.groups[id].reason.Some?
      ensures m.groups[id].entries == []
              && exists why: string :: why != "" && m.groups[id].reason.value == NOT_CAPTURED_BECAUSE + why
    {
      NotCapturedReasons(m.groups[id].reason.value);
    }
  }

  /** Arm PM-2. */
  lemma MappingNeedsACompletePass(d: Scorecard)
    requires ScorecardArms.Accepted(d) && BlockOf(d).Some?
    ensures ScorecardTheorems.ClaimsCompletePass(d)
  {
    hide ScorecardArms.Accepted, ScorecardArms.VersionFault, ScorecardArms.PostPutFault, ScorecardArms.OutcomeFault,
         ScorecardArms.AuthFault, ScorecardArms.ParityFault, ScorecardArms.TimeBasisFault,
         ScorecardArms.VerificationFault, ScorecardArms.UnsampledFault, ScorecardArms.SelectionFault,
         ScorecardArms.OriginalNameFault, ScorecardArms.ConsoleFault, ScorecardArms.ConsoleModeFault,
         ScorecardArms.CreationFault, ScorecardArms.ConfigurationFault, ScorecardArms.SchemasFault,
         ScorecardArms.TotalsOf;
    ScorecardTheorems.EveryBlockHolds(d);
  }
}
