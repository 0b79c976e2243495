/** The arms of `check_invariants`, in order: a verdict is the first arm that fails. */
module ScorecardArms {
  import opened Basics
  import opened Instants
  import opened Versions
  import opened Scorecard
  import TopicId
  import Whitespace

  datatype Arm =
    | Semver | NewerMajor | PS1
    | VersionIdSet | RetainUntilSet | ImmutableSet | CreateOnlySet | OffsetReport | ModeClosed | MarkerAbsent
    | PartialReason | RateNotFinite | CapturedPhase | CapturedRpo | CapturedReason | RpoUncontacted | ReasonAbsent
    | MetUnmeasured | NegativeGap | MatchingExceeds | PassResult | PassPartial | PassUnmet | PassUnmatched
    | SampledExceeds
    | MatrixPass | MatrixFail | RateLevel | PhaseRange
    | AuthUserWithoutMode | AuthBlank | AuthPredates | AuthClosed
    | NR1 | NR2 | NR3 | NR4 | NR5 | TB1 | TB2 | TB3 | TB4 | IV1 | IV2 | IV3 | IV4 | IV5 | IV6 | IV7 | US1 | US2 | US3
    | SEL1 | PS2 | SEL2 | SEL3 | PS3 | PS4 | PS5
    | ON14 | ON1 | ON2 | ON3 | ON4 | ON5 | ON6 | ON7 | ON8 | ON9 | ON10 | ON11 | ON12 | ON13
    | CA1 | CA2 | CA3 | CA4 | CA5 | CA6 | CA7 | CA8 | TCR1 | TCR2 | TCR3 | TCR4 | TCR5 | TC1 | TC2 | TC3 | TC4 | TC5
    | PM1 | PM2 | PM3 | PM4 | PM5 | SC1 | SC2 | SC3 | Redactions

  /** One arm: it fails unless its rule holds. */
  function Check(holds: bool, arm: Arm): Option<Arm> { if holds then None else Some(arm) }

  // ---- the version and the post-put fields -------------------------------------------

  function VersionFault(d: Scorecard): Option<Arm> {
    var major := Major(d.formatVersion);
    if major.None? then Some(Semver)
    else if major.value > 2 then Some(NewerMajor)
    else if major.value == 2 && !Narrows(d.source.selection) then Some(PS1)
    else None
  }

  predicate IsScratch(mode: Option<string>) { mode == None || mode == Some("scratch") }

  function PostPutFault(d: Scorecard): Option<Arm> {
    var e, t := d.evidence, d.target;
    if Major(d.formatVersion) != Some(1) && Major(d.formatVersion) != Some(2) then None
    else if e.versionId.Some? then Some(VersionIdSet)
    else if e.retainUntil.Some? then Some(RetainUntilSet)
    else if e.immutable then Some(ImmutableSet)
    else if e.createOnlyEnforced then Some(CreateOnlySet)
    else if Named(e.offsetReportKey) != Named(e.offsetReportSha256) then Some(OffsetReport)
    else if t.mode.Some? && t.mode.value != "scratch" && t.mode.value != "newTopic" then Some(ModeClosed)
    else if !Named(t.markerTopic) && IsScratch(t.mode) then Some(MarkerAbsent)
    else None
  }

  // ---- the outcome and what entails it -------------------------------------------------

  predicate NotNegative(gap: Option<int>) { gap.Some? ==> gap.value >= 0 }

  function CapturedFault(d: Scorecard): Option<Arm> {
    var m := d.measured;
    if d.source.capturedByLogweir then
      Then(Check(d.lastPhaseCompleted >= -1, CapturedPhase),
           Then(Check(m.rpoSourceRelativeSeconds.Some?, CapturedRpo), Check(m.unmeasuredReason.None?, CapturedReason)))
    else
      Then(Check(m.rpoSourceRelativeSeconds.None?, RpoUncontacted), Check(m.unmeasuredReason.Some?, ReasonAbsent))
  }

  function OutcomeFault(d: Scorecard): Option<Arm> {
    var i, o, m := d.integrity, d.objectives, d.measured;
    var passes := d.outcome == "pass";
    var measurable := i.level == "byte-fingerprint";
    if i.result == "partial" && !Named(i.partialReason) then Some(PartialReason)
    else if o.passRate == Some(NotFinite) || i.passRateMeasured == Some(NotFinite) then Some(RateNotFinite)
    else if CapturedFault(d).Some? then CapturedFault(d)
    else if !measurable && o.passRate.Some? && o.met == Some(true) then Some(MetUnmeasured)
    else if !(NotNegative(m.rpoSeconds) && NotNegative(m.rpoSourceRelativeSeconds) && NotNegative(o.rpoSeconds))
    then Some(NegativeGap)
    else if i.recordsSampledMatching > i.recordsSampled then Some(MatchingExceeds)
    else if passes && i.result != "pass" then Some(PassResult)
    else if passes && Named(i.partialReason) then Some(PassPartial)
    else if passes && o.met == Some(false) then Some(PassUnmet)
    else if passes && i.recordsSampledMatching != i.recordsSampled then Some(PassUnmatched)
    else if i.recordsSampled > d.recordsExpected then Some(SampledExceeds)
    else if d.engine.matrixVerdict == Some("pass") && !(passes && measurable) then Some(MatrixPass)
    else if d.engine.matrixVerdict == Some("fail") && d.engine.matrixVerdictReason.None? then Some(MatrixFail)
    else if !measurable && i.passRateMeasured.Some? then Some(RateLevel)
    else if !(-1 <= d.lastPhaseCompleted <= 9) then Some(PhaseRange)
    else None
  }

  function AuthFault(auth: Option<Auth>, version: string): Option<Arm> {
    if auth.None? then None
    else
      var a := auth.value;
      if !Named(a.mode) && Named(a.username) then Some(AuthUserWithoutMode)
      else if !Named(a.mode) then Some(AuthBlank)
      else if IsAddedMode(a.mode.value) then Check(DefinesFormat1Minor(version, 5), AuthPredates)
      else Check(IsOriginalMode(a.mode.value), AuthClosed)
  }

  // ---- topic parity and the time basis ---------------------------------------------------

  /** `_parity_key`: the text after the last `": "`, or the whole entry. */
  function ParityKey(entry: string, n: nat): string
    requires n <= |entry|
  {
    if n >= 2 && entry[n - 2] == ':' && entry[n - 1] == ' ' then entry[n..]
    else if n == 0 then entry
    else ParityKey(entry, n - 1)
  }

  predicate IsRestoreDecided(key: string) {
    key == "cleanup.policy" || key == "partition_count" || key == "replication_factor" || key == "retention.ms"
  }

  function ParityFault(d: Scorecard, version: string): Option<Arm> {
    if d.topicParity.notReconstructed.None? then None
    else
      var p, listed := d.topicParity, d.topicParity.notReconstructed.value;
      if !DefinesFormat1Minor(version, 2) then Some(NR1)
      else if exists e :: e in listed && e !in p.unexpectedDivergence then Some(NR2)
      else if exists e :: e in listed && e in p.intentionallyDeviated then Some(NR3)
      else if d.target.mode == Some("newTopic") && p.intentionallyDeviated != [] then Some(NR4)
      else if d.target.mode == Some("newTopic")
              && exists e :: e in p.unexpectedDivergence && IsRestoreDecided(ParityKey(e, |e|)) && e !in listed
      then Some(NR5)
      else None
  }

  function TimeBasisFault(timeBasis: Option<TimeBasis>, version: string): Option<Arm> {
    if timeBasis.None? then None
    else
      var t := timeBasis.value;
      if !DefinesFormat1Minor(version, 3) then Some(TB1)
      else if t.plan.Some? && t.plan.value != "producerTime" then Some(TB2)
      else if t.producerTime != [] && t.plan != Some("producerTime") then Some(TB3)
      else if exists topic :: topic in t.producerTime && topic in t.notRecorded then Some(TB4)
      else None
  }

  // ---- complete verification ----------------------------------------------------------------

  const MAX_U64: int := U64_END - 1

  /** `_sat_add`. */
  function SatAdd(a: U64, b: U64): U64 { if a + b > MAX_U64 then MAX_U64 else a + b }

  function AddReplays(a: Replay, b: Replay): Replay {
    Replay(SatAdd(a.expected, b.expected), SatAdd(a.restored, b.restored), SatAdd(a.matching, b.matching),
           SatAdd(a.missing, b.missing), SatAdd(a.unexpected, b.unexpected), SatAdd(a.duplicates, b.duplicates),
           SatAdd(a.outOfOrder, b.outOfOrder), SatAdd(a.mismatched, b.mismatched))
  }

  const NO_REPLAY: Replay := Replay(0, 0, 0, 0, 0, 0, 0, 0)

  datatype Totals = Totals(replay: Replay, segments: U64, segmentsVerified: U64, recordsDecoded: U64, offsetHoles: U64)

  function Add(t: Totals, p: Partition): Totals {
    Totals(AddReplays(t.replay, p.replay), SatAdd(t.segments, p.segments),
           SatAdd(t.segmentsVerified, p.segmentsVerified),
           SatAdd(t.recordsDecoded, p.recordsDecoded), SatAdd(t.offsetHoles, p.offsetHoles))
  }

  const NOTHING: Totals := Totals(NO_REPLAY, 0, 0, 0, 0)

  function TotalsOf(partitions: seq<Partition>): Totals {
    if partitions == [] then NOTHING
    else Add(TotalsOf(partitions[..|partitions| - 1]), partitions[|partitions| - 1])
  }

  /** `len(list)` as the reader adds it. */
  function Length(s: seq<string>): int { |s| }

  function ClampedAdd(a: int, b: int): int { if a + b > MAX_U64 then MAX_U64 else a + b }

  predicate Clean(c: Complete) {
    c.covered && c.partitions != [] && c.archive.segmentsFailed == [] && c.archive.segmentsUnverified == []
    && c.archive.segmentsVerified == c.archive.segments && Exact(c.replay)
    && forall i :: 0 <= i < |c.partitions| ==> c.partitions[i].compared && Exact(c.partitions[i].replay)
  }

  /** The block's totals are `t`, and its segments are each verified, failed or unverified. */
  predicate TotalsFit(c: Complete, t: Totals) {
    t.replay == c.replay && t.segments == c.archive.segments && t.segmentsVerified == c.archive.segmentsVerified
    && t.recordsDecoded == c.archive.recordsDecoded && t.offsetHoles == c.archive.offsetHoles
    && ClampedAdd(ClampedAdd(c.archive.segmentsVerified, Length(c.archive.segmentsFailed)),
                  Length(c.archive.segmentsUnverified))
       == c.archive.segments
  }

  function VerificationFault(verification: Option<Verification>, result: string, version: string,
                             totals: Totals): Option<Arm> {
    if verification.None? then None
    else
      var v := verification.value;
      var complete := v.coverage == "complete";
      if !DefinesFormat1Minor(version, 4) then Some(IV1)
      else if v.coverage != "sampled" && !complete then Some(IV2)
      else if (v.headerOrder != "verified" && v.headerOrder != "notVerified")
              || (v.headerOrder == "verified" && !complete)
      then Some(IV3)
      else if complete != v.complete.Some? then Some(IV4)
      else if v.complete.None? then None
      else
        var c := v.complete.value;
        if c.covered == Named(c.incompleteReason) then Some(IV5)
        else if result == "pass" && !Clean(c) then Some(IV6)
        else if !TotalsFit(c, totals) then Some(IV7)
        else None
  }

  /** The complete block's partitions; none when there is no block. */
  function PartitionsOf(verification: Option<Verification>): seq<Partition> {
    if verification.Some? && verification.value.complete.Some? then verification.value.complete.value.partitions else []
  }

  function UnsampledFault(d: Scorecard, version: string): Option<Arm> {
    if d.unsampledTopics.None? then None
    else
      var topics := d.unsampledTopics.value;
      if !DefinesFormat1Minor(version, 6) then Some(US1)
      else if topics == [] || (exists i :: 0 <= i < |topics| && RustBlank(topics[i])) || !StrictlySorted(topics)
      then Some(US2)
      else if d.integrity.verification.Some? && d.integrity.verification.value.coverage == "complete" then Some(US3)
      else None
  }

  // ---- the selection -----------------------------------------------------------------------

  predicate WellFormedSubset(e: TopicPartitions) {
    !RustBlank(e.topic) && e.partitions != [] && Ascending(e.partitions)
    && forall i :: 0 <= i < |e.partitions| ==> e.partitions[i] >= 0
  }

  predicate WellFormedSubsets(subsets: seq<TopicPartitions>) {
    (forall i :: 0 <= i < |subsets| - 1 ==> Less(subsets[i].topic, subsets[i + 1].topic))
    && forall i :: 0 <= i < |subsets| ==> WellFormedSubset(subsets[i])
  }

  function DistinctSubsets(subsets: seq<TopicPartitions>): set<seq<int>> {
    set i | 0 <= i < |subsets| :: subsets[i].partitions
  }

  /** The plan narrows the partition's topic to partitions it is not one of. */
  predicate Unselected(subsets: seq<TopicPartitions>, p: Partition) {
    exists i :: 0 <= i < |subsets| && subsets[i].topic == p.topic && p.partition !in subsets[i].partitions
  }

  predicate ExpectsUnselected(subsets: seq<TopicPartitions>, partitions: seq<Partition>) {
    exists i :: 0 <= i < |partitions| && partitions[i].replay.expected > 0 && Unselected(subsets, partitions[i])
  }

  function SelectionFault(selection: Option<Selection>, verification: Option<Verification>,
                          version: string): Option<Arm> {
    if selection.None? then None
    else
      var s := selection.value;
      var complete := if verification.Some? then verification.value.complete else None;
      if !DefinesFormat1Minor(version, 7) then Some(SEL1)
      else if Major(version) == Some(1) && (s.windowStart.None? || s.partitions.Some? || s.engineRuns.Some?)
      then Some(PS2)
      else if s.windowStart.Some? && s.windowStart.value >= s.windowEnd then Some(SEL2)
      else if complete.Some?
              && (complete.value.windowStart != s.windowStart || complete.value.windowEnd != s.windowEnd)
      then Some(SEL3)
      else if s.partitions.None? then None
      else
        var subsets := s.partitions.value;
        var need := |DistinctSubsets(subsets)|;
        if !WellFormedSubsets(subsets) then Some(PS3)
        else if s.engineRuns.None? || (s.engineRuns.value != need && s.engineRuns.value != need + 1) then Some(PS4)
        else if complete.Some? && ExpectsUnselected(subsets, complete.value.partitions) then Some(PS5)
        else None
  }

  // ---- original names -------------------------------------------------------------------------

  predicate IsApprovalModeAt180(mode: string) { mode == "v1Approval" || mode == "governed" || mode == "ordinary" }

  predicate IsDetectionPlace(place: string) {
    place == "plan" || place == "kafkaTopicResources" || place == "pointReceipt"
  }

  predicate OwnerListed(o: Owner, places: seq<string>) {
    o.foundIn in places && (o.kind == "strimzi" || o.kind == "external") && !RustBlank(o.topic)
  }

  function OriginalNameFault(d: Scorecard, version: string): Option<Arm> {
    if d.target.originalName.None? then None
    else
      var o, t, v := d.target.originalName.value, d.target, d.integrity.verification;
      var selection := d.source.selection;
      var typed := o.confirmation == Some("typedTopicNames");
      var listed := "kafkaTopicResources" in o.ownerDetection;
      var digestOk := o.resourcesSha256.Some? && IsSha256Prefixed(o.resourcesSha256.value);
      if selection.Some? && selection.value.partitions.Some? then Some(ON14)
      else if !DefinesOriginalName(version) then Some(ON1)
      else if IsScratch(t.mode) then Some(ON2)
      else if t.topicMappingPrefix != Some("") then Some(ON3)
      else if o.approvalSubject != "originalName" then Some(ON4)
      else if o.approvalMode == "consoleApproval" && !DefinesConsoleApproval(version) then Some(ON5)
      else if o.approvalMode != "consoleApproval" && !IsApprovalModeAt180(o.approvalMode) then Some(ON5)
      else if o.clusterCondition != "targetIsNotSource" && o.clusterCondition != "autoCreateDisabled" then Some(ON6)
      else if o.clusterCondition == "targetIsNotSource"
              && (!Named(o.sourceClusterId) || o.sourceClusterId == t.clusterId) then Some(ON7)
      else if o.ownerDetection == [] || !DistinctStrings(o.ownerDetection)
              || (exists i :: 0 <= i < |o.ownerDetection| && !IsDetectionPlace(o.ownerDetection[i])) then Some(ON8)
      else if exists i :: 0 <= i < |o.owners| && !OwnerListed(o.owners[i], o.ownerDetection) then Some(ON9)
      else if o.owners != [] && !o.ownerPath then Some(ON10)
      else if (o.approvalMode == "ordinary") != typed || (o.confirmation.Some? && !typed) then Some(ON11)
      else if listed != digestOk || (o.resourcesSha256.Some? && !digestOk) then Some(ON12)
      else if (v.Some? && v.value.coverage != "complete")
              || (v.None? && (d.outcome == "pass" || d.integrity.result == "pass")) then Some(ON13)
      else None
  }

  // ---- console approval -----------------------------------------------------------------------

  predicate VisibleAscii(s: string) { s != "" && forall i :: 0 <= i < |s| ==> 0x21 <= s[i] as int <= 0x7E }

  function FoldIssuer(issuer: string): string { AsciiLower(WithoutSlashes(issuer)) }

  const SYSTEM_PREFIX: string := "system:"

  /** A principal a console approval can compare, and a person. */
  predicate IsPerson(p: Principal) {
    VisibleAscii(p.issuer) && VisibleAscii(p.subject) && '#' !in p.issuer && |p.issuer| <= 255 && |p.subject| <= 255
    && FoldIssuer(p.issuer) != "urn:logweir:local-admin"
    && !(|p.subject| >= |SYSTEM_PREFIX| && AsciiLower(p.subject)[..|SYSTEM_PREFIX|] == SYSTEM_PREFIX)
  }

  predicate AreTwoPeople(requester: Principal, approver: Principal) {
    IsPerson(requester) && IsPerson(approver)
    && FoldIssuer(requester.issuer) == FoldIssuer(approver.issuer)
    && AsciiLower(requester.subject) != AsciiLower(approver.subject)
  }

  function ConsoleFault(d: Scorecard, version: string): Option<Arm> {
    if d.approval.console.None? then None
    else
      var a, c := d.approval, d.approval.console.value;
      if !DefinesConsoleApproval(version) then Some(CA1)
      else if c.mode != "consoleApproval" then Some(CA2)
      else if !AreTwoPeople(c.requester, c.approver) then Some(CA3)
      else if Before(c.approvedAt, c.requestedAt) || !Before(c.approvedAt, c.requestExpiresAt) then Some(CA4)
      else if a.approver != c.approver.issuer + "#" + c.approver.subject then Some(CA5)
      else if RustBlank(c.confirmationKeyId) || a.keyId != c.confirmationKeyId then Some(CA6)
      else if a.approvedAt != c.approvedAt then Some(CA7)
      else None
  }

  function ConsoleModeFault(d: Scorecard): Option<Arm> {
    Check(d.target.originalName.None?
          || ((d.target.originalName.value.approvalMode == "consoleApproval") == d.approval.console.Some?), CA8)
  }

  // ---- what the run created and configured --------------------------------------------------------

  predicate IdentityFits(t: CreatedTopic) {
    match (t.topicId, t.topicIdReason)
    case (Some(id), None) => TopicId.IsCanonical(id)
    case (None, Some(reason)) => TopicId.IsMissingReason(reason)
    case _ => false
  }

  function CreationFault(d: Scorecard, version: string): Option<Arm> {
    if d.target.creation.None? then None
    else
      var c := d.target.creation.value;
      if !DefinesTargetCreation(version) then Some(TCR1)
      else if c.lineageHeaders != "kept" then Some(TCR2)
      else if c.topics == [] || (exists i, j :: 0 <= i < j < |c.topics| && c.topics[i].name == c.topics[j].name)
              || (exists i :: 0 <= i < |c.topics| && (RustBlank(c.topics[i].name) || c.topics[i].partitions == 0))
      then Some(TCR3)
      else if exists i :: 0 <= i < |c.topics| && !IdentityFits(c.topics[i]) then Some(TCR4)
      else if c.teardownAfterSeconds.Some?
              && !(IsScratch(d.target.mode) && 300 <= c.teardownAfterSeconds.value <= 2592000)
      then Some(TCR5)
      else None
  }

  predicate TopicConfigured(t: ConfiguredTopic) {
    (t.route == "adminApi" || t.route == "desiredStateExport")
    && (t.factorReason == "sourceFactor" || t.factorReason == "targetBrokers" || t.factorReason == "notRecorded")
    && t.factorTarget != 0
  }

  predicate SecretsFit(t: ConfiguredTopic) {
    forall i :: 0 <= i < |t.notApplied| ==> (t.notApplied[i].portability == "secret") == t.notApplied[i].value.None?
  }

  function ConfigurationFault(configuration: Option<TopicConfiguration>, version: string): Option<Arm> {
    if configuration.None? then None
    else
      var c := configuration.value;
      var exported := exists i :: 0 <= i < |c.topics| && c.topics[i].route == "desiredStateExport";
      if !DefinesTopicConfiguration(version) then Some(TC1)
      else if c.transition != "afterVerification" && c.transition != "none" then Some(TC2)
      else if exists i :: 0 <= i < |c.topics| && !TopicConfigured(c.topics[i]) then Some(TC3)
      else if exported != c.desiredStateSha256.Some?
              || (c.desiredStateSha256.Some? && !IsSha256Prefixed(c.desiredStateSha256.value)) then Some(TC4)
      else if exists i :: 0 <= i < |c.topics| && !SecretsFit(c.topics[i]) then Some(TC5)
      else None
  }

  function MappingFault(d: Scorecard, version: string): Option<Arm> {
    if d.integrity.verification.None? || d.integrity.verification.value.positionsMapping.None? then None
    else
      var v := d.integrity.verification.value;
      var pm := v.positionsMapping.value;
      if !DefinesPositionsMapping(version) then Some(PM1)
      else if !(d.outcome == "pass" && v.coverage == "complete" && v.complete.Some? && v.complete.value.covered)
      then Some(PM2)
      else if !((pm.document.Some? && pm.omitted.None?)
                || (pm.document.None? && (pm.omitted == Some("tooLarge") || pm.omitted == Some("writeFailed"))))
      then Some(PM3)
      else if pm.document.Some?
              && (pm.document.value.key != "logweir/drills/" + d.runId + ".positions-mapping.json"
                  || !IsSha256Prefixed(pm.document.value.sha256)
                  || !(1 <= pm.document.value.bytes <= 4194304)) then Some(PM4)
      else if pm.groups == 0 then Some(PM5)
      else None
  }

  predicate Earlier(a: SubjectVersion, b: SubjectVersion) {
    Less(a.subject, b.subject)
    || (a.subject == b.subject && (a.version < b.version || (a.version == b.version && a.id < b.id)))
  }

  function SchemasFault(schemas: Option<Schemas>, version: string): Option<Arm> {
    if schemas.None? then None
    else
      var s := schemas.value;
      var shapeOk :=
        if s.notImported.Some? then
          (s.notImported.value == "noTargetRegistry" || s.notImported.value == "noSnapshot")
          && s.snapshotSha256.None? && s.targetRegistryUrl.None? && s.imported == [] && s.importedCount == 0
          && s.alreadyPresent == 0 && s.idsNotInSnapshot == []
        else
          s.snapshotSha256.Some? && IsSha256Prefixed(s.snapshotSha256.value) && s.targetRegistryUrl.Some?
          && !Whitespace.Blank(s.targetRegistryUrl.value);
      if !DefinesSchemas(version) then Some(SC1)
      else if !shapeOk then Some(SC2)
      else if |s.imported| != Min(s.importedCount, 256)
              || (exists i :: 0 <= i < |s.imported| - 1 && !Earlier(s.imported[i], s.imported[i + 1]))
              || |s.idsNotInSnapshot| > 32 || !Ascending(s.idsNotInSnapshot)
              || (exists i :: 0 <= i < |s.idsNotInSnapshot| && !(1 <= s.idsNotInSnapshot[i] <= 0xFFFFFF)) then Some(SC3)
      else None
  }

  // ---- the verdict ----------------------------------------------------------------------------------

  /** The first arm that fails, given the partitions' totals. */
  function FaultGiven(d: Scorecard, totals: Totals): Option<Arm> {
    var v := d.formatVersion;
    Then(VersionFault(d),
    Then(PostPutFault(d),
    Then(OutcomeFault(d),
    Then(AuthFault(d.target.auth, v),
    Then(ParityFault(d, v),
    Then(TimeBasisFault(d.source.timeBasis, v),
    Then(VerificationFault(d.integrity.verification, d.integrity.result, v, totals),
    Then(UnsampledFault(d, v),
    Then(SelectionFault(d.source.selection, d.integrity.verification, v),
    Then(OriginalNameFault(d, v),
    Then(ConsoleFault(d, v),
    Then(ConsoleModeFault(d),
    Then(CreationFault(d, v),
    Then(ConfigurationFault(d.target.topicConfiguration, v),
    Then(MappingFault(d, v),
    Then(SchemasFault(d.target.schemas, v),
    Check(!d.redacted, Redactions)))))))))))))))))
  }

  function Fault(d: Scorecard): Option<Arm> {
    FaultGiven(d, TotalsOf(PartitionsOf(d.integrity.verification)))
  }

  predicate Accepted(d: Scorecard) { Fault(d).None? }

  /** Each block judged on its own, whatever the others say. */
  predicate EveryBlockAlone(d: Scorecard) {
    var v := d.formatVersion;
    VersionFault(d).None? && PostPutFault(d).None? && OutcomeFault(d).None? && AuthFault(d.target.auth, v).None?
    && ParityFault(d, v).None? && TimeBasisFault(d.source.timeBasis, v).None?
    && VerificationFault(d.integrity.verification, d.integrity.result, v,
                         TotalsOf(PartitionsOf(d.integrity.verification))).None?
    && UnsampledFault(d, v).None? && SelectionFault(d.source.selection, d.integrity.verification, v).None?
    && OriginalNameFault(d, v).None? && ConsoleFault(d, v).None? && ConsoleModeFault(d).None?
    && CreationFault(d, v).None? && ConfigurationFault(d.target.topicConfiguration, v).None? && MappingFault(d, v).None?
    && SchemasFault(d.target.schemas, v).None? && !d.redacted
  }

  /** Arm IV-7's sums: eight counts and four more, each saturating, over the partitions in order. */
  method SumPartitions(partitions: seq<Partition>) returns (t: Totals)
    ensures t == TotalsOf(partitions)
  {
    t := NOTHING;
    for i := 0 to |partitions|
      invariant t == TotalsOf(partitions[..i])
    {
      assert partitions[..i + 1][..i] == partitions[..i];
      t := Add(t, partitions[i]);
    }
    assert partitions[..|partitions|] == partitions;
  }

  /** `check_invariants`: no fault exactly when every block holds on its own, and otherwise the first arm that fails. */
  method CheckInvariants(d: Scorecard) returns (fault: Option<Arm>)
    ensures fault == Fault(d)
    ensures fault.None? <==> EveryBlockAlone(d)
  {
    hide VersionFault, PostPutFault, OutcomeFault, AuthFault, ParityFault, TimeBasisFault, VerificationFault,
         UnsampledFault, SelectionFault, OriginalNameFault, ConsoleFault, ConsoleModeFault, CreationFault,
         ConfigurationFault, MappingFault, SchemasFault, TotalsOf;
    var totals := SumPartitions(PartitionsOf(d.integrity.verification));
    fault := FaultGiven(d, totals);
  }
}
