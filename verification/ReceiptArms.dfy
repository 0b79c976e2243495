/** The 49 arms of `check_backup_receipt_invariants`, in order: a verdict is the first arm that fails. */
module ReceiptArms {
  import opened Basics
  import opened Versions
  import opened Receipt
  import TopicId

  datatype Arm =
    | A1 | A2 | A3 | A4 | A5 | A6 | A7 | A8 | A9 | A10 | A11 | A12 | A13 | A14 | A15 | A16 | A17 | A18 | A19 | A20 | A21
    | A22 | A23 | A24 | A25 | A26 | A27 | A28 | A29 | A30 | A31 | A32 | A33 | A34 | A35 | A36 | A37 | A38 | A39 | A40
    | A41 | A42 | A43 | A44 | A45 | A46 | A47 | A48 | A49

  // ---- arms 1 to 5 -----------------------------------------------------------------------

  predicate IsReadable(version: string) { Semver(version).Some? && Semver(version).value.0 == 1 }

  function ReceiptMinor(version: string): nat { if Semver(version).Some? then Semver(version).value.1 else 0 }

  function WindowFault(fromMs: int, toMs: int, watermarks: bool): Option<Arm> {
    if fromMs > toMs || (fromMs == toMs && !watermarks) then Some(A4) else None
  }

  function AuthFault(mode: string, minor: nat): Option<Arm> {
    if IsAddedMode(mode) then (if minor >= 4 then None else Some(A5))
    else if IsOriginalMode(mode) then None
    else Some(A5)
  }

  function HeadFault(r: Receipt, minor: nat): Option<Arm> {
    if (r.exitCode == 0) != Named(r.manifestKey) then Some(A2)
    else if r.records.Keys != NamedTopics(r) then Some(A3)
    else Then(WindowFault(r.fromMs, r.toMs, r.sourceWatermarks.Some?), AuthFault(r.authMode, minor))
  }

  // ---- arms 6 to 11: the configuration reads -----------------------------------------------

  predicate IsConfigSource(source: string) {
    source == "dynamicTopicConfig" || source == "dynamicBrokerConfig" || source == "dynamicDefaultBrokerConfig"
    || source == "staticBrokerConfig" || source == "defaultConfig" || source == "unknown"
  }

  function CoverageFault(c: Coverage): Option<Arm> {
    if c.coverage != "captured" && c.coverage != "notCaptured" && c.coverage != "captureDenied" then Some(A8)
    else if if c.reason.Some?
            then c.coverage != "notCaptured"
                 || (c.reason.value != "describeFailed" && c.reason.value != "manifestDiffers")
            else c.coverage == "notCaptured" then Some(A9)
    else if (c.coverage == "captureDenied" || c.reason == Some("describeFailed")) && c.timestampType.Some?
    then Some(A10)
    else if c.timestampType.Some?
            && ((c.timestampType.value.value != "CreateTime" && c.timestampType.value.value != "LogAppendTime")
                || !IsConfigSource(c.timestampType.value.source)) then Some(A11)
    else None
  }

  function CoverageBlockFault(block: Option<map<string, Coverage>>, named: set<string>, minor: nat): Option<Arm> {
    if block.None? then None
    else if minor < 1 then Some(A6)
    else if block.value.Keys != named then Some(A7)
    else FirstInOrder(block.value, (topic: string, c: Coverage) => CoverageFault(c))
  }

  // ---- arms 12 to 21: what each topic was configured with, and who owns it -------------------

  /** A topic's configuration was read. */
  predicate ReadSucceeded(c: Coverage) {
    c.coverage == "captured" || (c.coverage == "notCaptured" && c.reason == Some("manifestDiffers"))
  }

  predicate IsPortability(portability: string) {
    portability == "portable" || portability == "inherited" || portability == "removedInKafka4"
    || portability == "clusterBound" || portability == "requiresTieredStorage" || portability == "providerOnly"
    || portability == "secret"
  }

  predicate ValueFits(e: ConfigEntry) {
    if e.portability == "secret" || e.value.None? then e.portability == "secret" && e.value.None?
    else (e.portability == "inherited") == (e.source != "dynamicTopicConfig")
  }

  function EntryFault(e: ConfigEntry): Option<Arm> {
    if !IsConfigSource(e.source) || !IsPortability(e.portability) then Some(A16)
    else if !ValueFits(e) then Some(A17)
    else None
  }

  function EntryFaults(): (string, ConfigEntry) -> Option<Arm> { (key: string, e: ConfigEntry) => EntryFault(e) }

  predicate IsControl(c: char) { c as int <= 0x1F || 0x7F <= c as int <= 0x9F }

  predicate OwnerHolds(o: Owner) {
    (o.kind == "strimzi" || o.kind == "external")
    && (o.basis == "declared" || (o.basis == "kafkaTopicResource" && o.kind == "strimzi"))
    && !RustBlank(o.reference) && |o.reference| <= 256
    && forall i :: 0 <= i < |o.reference| ==> !IsControl(o.reference[i])
  }

  function TopicModelFault(topic: string, t: TopicModel, coverage: map<string, Coverage>): Option<Arm> {
    if t.entries.Some? != (topic in coverage && ReadSucceeded(coverage[topic])) then Some(A15)
    else Then(if t.entries.Some? then FirstInOrder(t.entries.value, EntryFaults()) else None,
              if t.owner.Some? && !OwnerHolds(t.owner.value) then Some(A18)
              else if t.partitions == Some(0) || t.replicationFactor == Some(0) then Some(A19)
              else None)
  }

  function TopicModelFaults(coverage: map<string, Coverage>): (string, TopicModel) -> Option<Arm> {
    (topic: string, t: TopicModel) => TopicModelFault(topic, t, coverage)
  }

  function ModelBlockFault(block: Option<map<string, TopicModel>>, coverage: Option<map<string, Coverage>>,
                           named: set<string>, minor: nat): Option<Arm>
  {
    if block.None? then None
    else if minor < 3 then Some(A12)
    else if coverage.None? then Some(A13)
    else if block.value.Keys != named then Some(A14)
    else FirstInOrder(block.value, TopicModelFaults(coverage.value))
  }

  predicate IsDetection(d: string) { d == "declared" || d == "kafkaTopicResources" }

  function DetectionOf(basis: string): Option<string> {
    if basis == "declared" then Some("declared")
    else if basis == "kafkaTopicResource" then Some("kafkaTopicResources")
    else None
  }

  function OwnerSourceFault(t: TopicModel, looked: seq<string>): Option<Arm> {
    if t.owner.None? then None
    else
      var source := DetectionOf(t.owner.value.basis);
      if source.None? || source.value !in looked then Some(A21) else None
  }

  function OwnersFault(detection: Option<seq<string>>, block: Option<map<string, TopicModel>>): Option<Arm> {
    if detection.Some? && !(block.Some? && DistinctStrings(detection.value)
                            && forall i :: 0 <= i < |detection.value| ==> IsDetection(detection.value[i]))
    then Some(A20)
    else if block.None? then None
    else
      var looked := if detection.Some? then detection.value else [];
      FirstInOrder(block.value, (topic: string, t: TopicModel) => OwnerSourceFault(t, looked))
  }

  // ---- arms 22 to 29: schema dependency ---------------------------------------------------------

  const SCHEMA_ID_MAX: int := 0xFFFFFF
  const SCHEMA_IDS_LISTED: int := 16

  predicate IsNotAssessedReason(reason: string) {
    reason == "noRecords" || reason == "segmentUnreadable" || reason == "segmentTooLargeForDetection"
    || reason == "detectionTimeBudgetExceeded"
  }

  predicate VerdictFits(d: Dependency) {
    (d.verdict == "schemaDependent" || d.verdict == "notDetected" || d.verdict == "notAssessed")
    && if d.verdict != "notAssessed" then d.reason.None? && (d.basis == Some("sampled") || d.basis == Some("complete"))
       else d.basis.None? && d.reason.Some? && IsNotAssessedReason(d.reason.value)
  }

  predicate SidesFit(d: Dependency) {
    match (d.key, d.value)
    case (Some(key), Some(value)) => d.verdict != "notAssessed" && key.Judged() == value.Judged() && key.Judged() >= 1
    case (None, None) => d.verdict == "notAssessed"
    case _ => false
  }

  function JudgedOf(d: Dependency): nat { if d.key.None? then 0 else d.key.value.Judged() }

  predicate BasisFits(d: Dependency, counted: int) {
    if d.basis == Some("complete") then JudgedOf(d) == counted
    else if d.basis.Some? then JudgedOf(d) <= counted
    else if d.reason == Some("noRecords") then counted == 0
    else true
  }

  predicate IdsFit(s: Side) {
    Ascending(s.schemaIds) && (forall i :: 0 <= i < |s.schemaIds| ==> 1 <= s.schemaIds[i] <= SCHEMA_ID_MAX)
    && |s.schemaIds| == Min(s.schemaIdCount, SCHEMA_IDS_LISTED)
    && (s.schemaIdCount >= 1) == (s.framed >= 1) && s.schemaIdCount <= s.framed
  }

  /** `_dependent_by_share`. */
  predicate DependentByShare(framed: nat, unframed: nat) { framed >= 1 && framed * 10 >= framed + unframed }

  function SideFault(s: Option<Side>): Option<Arm> {
    if s.None? then None
    else if !IdsFit(s.value) then Some(A27)
    else if s.value.dependent != DependentByShare(s.value.framed, s.value.unframed) then Some(A28)
    else None
  }

  function DependencyFault(d: Dependency, counted: int): Option<Arm> {
    if !VerdictFits(d) then Some(A24)
    else if !SidesFit(d) then Some(A25)
    else if !BasisFits(d, counted) then Some(A26)
    else
      Then(SideFault(d.key),
      Then(SideFault(d.value),
      if d.key.Some? && d.value.Some?
         && (d.verdict == "schemaDependent") != (d.key.value.dependent || d.value.value.dependent) then Some(A29)
      else None))
  }

  /** `records.get(topic, 0)`. */
  function Counted(records: map<string, int>, topic: string): int { if topic in records then records[topic] else 0 }

  function DependencyFaults(records: map<string, int>): (string, Dependency) -> Option<Arm> {
    (topic: string, d: Dependency) => DependencyFault(d, Counted(records, topic))
  }

  function DependencyBlockFault(block: Option<map<string, Dependency>>, named: set<string>, records: map<string, int>,
                                minor: nat): Option<Arm>
  {
    if block.None? then None
    else if minor < 5 then Some(A22)
    else if block.value.Keys != named then Some(A23)
    else FirstInOrder(block.value, DependencyFaults(records))
  }

  // ---- arms 30 to 35: the consumer positions' summary ---------------------------------------------

  predicate IsExcludedReason(reason: string) { reason == "GroupTypeNotCaptured" || reason == "GroupNotFound" }

  predicate IsFailedReason(reason: string) {
    reason == "NotVisibleToPrincipal" || reason == "NotVisibleOrUnreachable" || reason == "NotAuthorized"
    || reason == "PositionsUnstable" || reason == "ListingInconsistent" || reason == "AbsenceUnproven"
    || reason == "TypeUnproven" || reason == "Unreachable" || reason == "DescribeFailed" || reason == "PositionsFailed"
    || reason == "GenerationChangedDuringCapture" || reason == "CaptureUnavailable"
    || reason == "GroupVanishedDuringCapture" || reason == "PartitionsNotRead"
  }

  predicate OutcomeFits(g: Group) {
    match g.outcome
    case "captured" => g.reason.None?
    case "excluded" => g.reason.Some? && IsExcludedReason(g.reason.value)
    case "failed" => g.reason.Some? && IsFailedReason(g.reason.value)
    case _ => false
  }

  predicate IsGroupState(state: Option<string>) {
    state.Some?
    && (state.value == "PreparingRebalance" || state.value == "CompletingRebalance" || state.value == "Stable"
        || state.value == "Dead" || state.value == "Empty" || state.value == "stateUnknownToClient")
  }

  predicate FieldsFit(g: Group) {
    if g.outcome == "captured" then
      (g.groupType == Some("classic") || g.groupType == Some("consumer"))
      && IsGroupState(g.state) && IsGroupState(g.listedState) && g.members.Some? && g.active.Some?
      && g.counts.Some? && g.counts.value.Total() >= 1 && !(g.state == Some("Dead") && g.members == Some(0))
    else
      g.state.None? && g.listedState.None? && g.members.None? && g.active.None? && g.counts.None?
      && g.groupType == if g.reason == Some("GroupTypeNotCaptured") then Some("other") else None
  }

  predicate IsInactive(state: string) { state == "Empty" || state == "Dead" }

  function GroupFault(g: Group): Option<Arm> {
    if !OutcomeFits(g) then Some(A33)
    else if !FieldsFit(g) then Some(A34)
    else if g.state.Some? && g.listedState.Some? && g.active.Some?
            && g.active.value != (!IsInactive(g.state.value) || !IsInactive(g.listedState.value)) then Some(A35)
    else None
  }

  function GroupFaults(): (string, Group) -> Option<Arm> { (id: string, g: Group) => GroupFault(g) }

  function PositionsFault(block: Option<ConsumerPositions>, backupId: string, runId: string, minor: nat): Option<Arm> {
    if block.None? then None
    else
      var cp := block.value;
      if minor < 7 then Some(A30)
      else if cp.observedTo < cp.observedFrom || (cp.listing != "complete" && cp.listing != "notComplete")
              || cp.groups == map[]
      then Some(A31)
      else if cp.document.key != "logweir/backups/" + backupId + "/" + runId + ".consumer-positions.json"
              || !IsSha256Prefixed(cp.document.sha256) || cp.document.bytes == 0 then Some(A32)
      else FirstInOrder(cp.groups, GroupFaults())
  }

  // ---- arms 36 to 40: the topics' identities ----------------------------------------------------

  predicate IdIsCanonical(id: Option<string>) { id.Some? ==> TopicId.IsCanonical(id.value) }

  predicate ReasonFits(id: Option<string>, reason: Option<string>) {
    if id.Some? then reason.None? else reason.Some? && TopicId.IsMissingReason(reason.value)
  }

  function GenerationFault(g: Generation): Option<Arm> {
    var recorded := g.topicId.Some? || g.topicIdAfter.Some?;
    if !IdIsCanonical(g.topicId) || !IdIsCanonical(g.topicIdAfter) then Some(A38)
    else if !ReasonFits(g.topicId, g.topicIdReason) || !ReasonFits(g.topicIdAfter, g.topicIdAfterReason) then Some(A39)
    else if if g.topicIdSource.Some?
            then !recorded || (g.topicIdSource.value != "describeTopics" && g.topicIdSource.value != "engineManifest")
            else recorded then Some(A40)
    else None
  }

  function GenerationsFault(block: Option<map<string, Generation>>, named: set<string>, minor: nat): Option<Arm> {
    if block.None? then None
    else if minor < 6 then Some(A36)
    else if block.value.Keys != named then Some(A37)
    else FirstInOrder(block.value, (topic: string, g: Generation) => GenerationFault(g))
  }

  // ---- arms 41 to 45: the source's watermarks -----------------------------------------------------

  function PairsFault(pairs: seq<(U64, U64)>): Option<Arm> {
    if pairs == [] then Some(A43)
    else if exists i :: 0 <= i < |pairs| && pairs[i].0 > pairs[i].1 then Some(A44)
    else None
  }

  function PairsFaults(): (string, seq<(U64, U64)>) -> Option<Arm> {
    (topic: string, pairs: seq<(U64, U64)>) => PairsFault(pairs)
  }

  /** No topic counts a record and no partition held one: `_empty_capture_contradiction` finds nothing. */
  predicate IsEmptyCapture(records: map<string, int>, watermarks: map<string, seq<(U64, U64)>>) {
    (forall t :: t in records ==> records[t] <= 0)
    && forall t, i :: t in watermarks && 0 <= i < |watermarks[t]| ==> watermarks[t][i].0 == watermarks[t][i].1
  }

  function WatermarksFault(block: Option<map<string, seq<(U64, U64)>>>, named: set<string>, records: map<string, int>,
                           emptyWindow: bool, minor: nat): Option<Arm>
  {
    if block.None? then None
    else if minor < 8 then Some(A41)
    else if block.value.Keys != named then Some(A42)
    else
      Then(FirstInOrder(block.value, PairsFaults()),
           if emptyWindow && !IsEmptyCapture(records, block.value) then Some(A45) else None)
  }

  // ---- arms 46 to 49: the schema registry -----------------------------------------------------------

  predicate IsCaptureReason(reason: string) {
    reason == "registryUnreachable" || reason == "registryUnauthorized" || reason == "snapshotTooLarge"
    || reason == "snapshotIncomplete"
  }

  predicate NamesItsSnapshot(s: Registry, backupId: string, runId: string) {
    if s.captured then
      s.snapshotKey == Some("logweir/backups/" + backupId + "/" + runId + ".schema-registry.json")
      && s.snapshotSha256.Some? && IsSha256Prefixed(s.snapshotSha256.value)
      && s.subjects <= s.versions && (s.subjects == 0) == (s.versions == 0)
    else
      s.snapshotKey.None? && s.snapshotSha256.None? && s.subjects == 0 && s.versions == 0
      && s.unresolvedReferences == [] && s.idsNotInSnapshot == []
  }

  predicate ListsHold(s: Registry) {
    |s.unresolvedReferences| <= 32 && |s.idsNotInSnapshot| <= 32
    && (forall i :: 0 <= i < |s.unresolvedReferences| - 1 ==>
          Less(s.unresolvedReferences[i], s.unresolvedReferences[i + 1]))
    && Ascending(s.idsNotInSnapshot)
    && (forall i :: 0 <= i < |s.unresolvedReferences| ==> |s.unresolvedReferences[i]| <= 256)
    && forall i :: 0 <= i < |s.idsNotInSnapshot| ==> 1 <= s.idsNotInSnapshot[i] <= SCHEMA_ID_MAX
  }

  function RegistryFault(block: Option<Registry>, backupId: string, runId: string, minor: nat): Option<Arm> {
    if block.None? then None
    else
      var s := block.value;
      if minor < 9 then Some(A46)
      else if if s.captured then s.reason.Some? else s.reason.None? || !IsCaptureReason(s.reason.value) then Some(A47)
      else if !NamesItsSnapshot(s, backupId, runId) then Some(A48)
      else if !ListsHold(s) then Some(A49)
      else None
  }

  // ---- the verdict ------------------------------------------------------------------------------------

  /** Arms 2 to 49, at a minor of format 1. */
  function FaultAt(r: Receipt, minor: nat): Option<Arm> {
    var named := NamedTopics(r);
    Then(HeadFault(r, minor),
    Then(CoverageBlockFault(r.configCoverage, named, minor),
    Then(ModelBlockFault(r.topicConfiguration, r.configCoverage, named, minor),
    Then(OwnersFault(r.ownerDetection, r.topicConfiguration),
    Then(DependencyBlockFault(r.schemaDependency, named, r.records, minor),
    Then(PositionsFault(r.consumerPositions, r.backupId, r.runId, minor),
    Then(GenerationsFault(r.generations, named, minor),
    Then(WatermarksFault(r.sourceWatermarks, named, r.records, r.fromMs == r.toMs, minor),
         RegistryFault(r.schemaRegistry, r.backupId, r.runId, minor)))))))))
  }

  /** `check_backup_receipt_invariants`: None when the receipt holds. */
  function Fault(r: Receipt): Option<Arm> {
    if !IsReadable(r.formatVersion) then Some(A1) else FaultAt(r, ReceiptMinor(r.formatVersion))
  }

  predicate Accepted(r: Receipt) { Fault(r).None? }
}
