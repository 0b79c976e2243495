/** The drill scorecard after its shape checks, as `check_invariants` reads it. */
module Scorecard {
  import opened Basics
  import opened Instants
  import opened Versions

  /** The eight counts of a replay comparison. */
  datatype Replay = Replay(expected: U64, restored: U64, matching: U64, missing: U64, unexpected: U64,
                           duplicates: U64, outOfOrder: U64, mismatched: U64)

  datatype Partition = Partition(topic: string, partition: int, targetTopic: string, compared: bool, replay: Replay,
                                 segments: U64, segmentsVerified: U64, recordsDecoded: U64, offsetHoles: U64)

  datatype Archive = Archive(segments: U64, segmentsVerified: U64, segmentsFailed: seq<string>,
                             segmentsUnverified: seq<string>, recordsDecoded: U64, offsetHoles: U64)

  datatype Complete = Complete(covered: bool, incompleteReason: Option<string>, windowStart: Option<int>,
                               windowEnd: int,
                               archive: Archive, replay: Replay, partitions: seq<Partition>)

  datatype Document = Document(key: string, sha256: string, bytes: U64)

  datatype PositionsMapping = PositionsMapping(document: Option<Document>, omitted: Option<string>, exact: U64,
                                               approximate: U64, unavailable: U64, groups: U32)

  datatype Verification = Verification(coverage: string, headerOrder: string, complete: Option<Complete>,
                                       positionsMapping: Option<PositionsMapping>)

  datatype TopicPartitions = TopicPartitions(topic: string, partitions: seq<int>)

  datatype Selection = Selection(windowStart: Option<int>, windowEnd: int, partitions: Option<seq<TopicPartitions>>,
                                 engineRuns: Option<U32>)

  datatype TimeBasis = TimeBasis(plan: Option<string>, producerTime: seq<string>, notRecorded: seq<string>)

  datatype Source = Source(capturedByLogweir: bool, timeBasis: Option<TimeBasis>, selection: Option<Selection>)

  datatype Owner = Owner(topic: string, kind: string, foundIn: string)

  datatype OriginalName = OriginalName(approvalSubject: string, approvalMode: string, clusterCondition: string,
                                       sourceClusterId: Option<string>, ownerDetection: seq<string>, owners: seq<Owner>,
                                       ownerPath: bool, confirmation: Option<string>, resourcesSha256: Option<string>)

  datatype CreatedTopic = CreatedTopic(name: string, partitions: U32, topicId: Option<string>,
                                       topicIdReason: Option<string>)

  datatype Creation = Creation(lineageHeaders: string, topics: seq<CreatedTopic>, teardownAfterSeconds: Option<U64>)

  datatype NotApplied = NotApplied(portability: string, value: Option<string>)

  datatype ConfiguredTopic = ConfiguredTopic(route: string, factorReason: string, factorTarget: U32,
                                             notApplied: seq<NotApplied>)

  datatype TopicConfiguration = TopicConfiguration(transition: string, topics: seq<ConfiguredTopic>,
                                                   desiredStateSha256: Option<string>)

  datatype SubjectVersion = SubjectVersion(subject: string, version: U32, id: U32)

  datatype Schemas = Schemas(notImported: Option<string>, snapshotSha256: Option<string>,
                             targetRegistryUrl: Option<string>,
                             imported: seq<SubjectVersion>, importedCount: U64, alreadyPresent: U64,
                             idsNotInSnapshot: seq<int>)

  datatype Auth = Auth(mode: Option<string>, username: Option<string>)

  datatype Target = Target(mode: Option<string>, markerTopic: Option<string>, clusterId: Option<string>,
                           topicMappingPrefix: Option<string>, auth: Option<Auth>, originalName: Option<OriginalName>,
                           creation: Option<Creation>, topicConfiguration: Option<TopicConfiguration>,
                           schemas: Option<Schemas>)

  datatype Principal = Principal(issuer: string, subject: string)

  datatype Console = Console(mode: string, requester: Principal, approver: Principal, requestedAt: Instant,
                             approvedAt: Instant, requestExpiresAt: Instant, confirmationKeyId: string)

  /** The three fields beside `console` are read only with it. */
  datatype Approval = Approval(approver: string, keyId: string, approvedAt: Instant, console: Option<Console>)

  datatype Evidence = Evidence(versionId: Option<string>, retainUntil: Option<string>, immutable: bool,
                               createOnlyEnforced: bool, offsetReportKey: Option<string>,
                               offsetReportSha256: Option<string>)

  /** A JSON number that may be one of the tokens for infinity or no number. */
  datatype Rate = Finite(value: real) | NotFinite

  datatype Integrity = Integrity(result: string, level: string, partialReason: Option<string>,
                                 passRateMeasured: Option<Rate>,
                                 recordsSampled: U64, recordsSampledMatching: U64, verification: Option<Verification>)

  datatype Objectives = Objectives(passRate: Option<Rate>, met: Option<bool>, rpoSeconds: Option<int>)

  datatype Measured = Measured(rpoSeconds: Option<int>, rpoSourceRelativeSeconds: Option<int>,
                               unmeasuredReason: Option<string>)

  datatype Engine = Engine(matrixVerdict: Option<string>, matrixVerdictReason: Option<string>)

  datatype TopicParity = TopicParity(intentionallyDeviated: seq<string>, unexpectedDivergence: seq<string>,
                                     notReconstructed: Option<seq<string>>)

  datatype Scorecard = Scorecard(formatVersion: string, runId: string, outcome: string, lastPhaseCompleted: int,
                                 engine: Engine, source: Source, target: Target, approval: Approval, measured: Measured,
                                 objectives: Objectives, recordsExpected: U64, unsampledTopics: Option<seq<string>>,
                                 integrity: Integrity, topicParity: TopicParity, evidence: Evidence, redacted: bool)

  /** `_replay_exact`: every expected record restored once and matching, and nothing else. */
  predicate Exact(r: Replay) {
    r.missing == 0 && r.unexpected == 0 && r.duplicates == 0 && r.outOfOrder == 0 && r.mismatched == 0
    && r.matching == r.expected && r.restored == r.expected
  }

  /** `_narrows_partitions`. */
  predicate Narrows(selection: Option<Selection>) {
    selection.Some? && selection.value.partitions.Some? && selection.value.partitions.value != []
  }
}
