/** The backup receipt after its shape checks, as `check_backup_receipt_invariants` reads it. */
module Receipt {
  import opened Basics
  import opened Versions

  datatype TimestampType = TimestampType(value: string, source: string)

  datatype Coverage = Coverage(coverage: string, reason: Option<string>, timestampType: Option<TimestampType>)

  datatype ConfigEntry = ConfigEntry(value: Option<string>, source: string, portability: string)

  datatype Owner = Owner(kind: string, basis: string, reference: string)

  datatype TopicModel = TopicModel(partitions: Option<U32>, replicationFactor: Option<U32>,
                                   entries: Option<map<string, ConfigEntry>>, owner: Option<Owner>)

  /** One side, key or value, of a topic's judged records. */
  datatype Side = Side(dependent: bool, framed: U64, unframed: U64, nulls: U64, schemaIdCount: U64,
                       schemaIds: seq<int>) {
    /** `_judged_records`. */
    function Judged(): nat { framed + unframed + nulls }
  }

  datatype Dependency = Dependency(verdict: string, reason: Option<string>, basis: Option<string>,
                                   key: Option<Side>, value: Option<Side>)

  datatype Generation = Generation(topicId: Option<string>, topicIdAfter: Option<string>, topicIdSource: Option<string>,
                                   topicIdReason: Option<string>, topicIdAfterReason: Option<string>)

  /** Where a captured group's partitions went. */
  datatype Counts = Counts(related: U32, notRelated: U32, neverCommitted: U32, beyondEnd: U32, failed: U32,
                           notObserved: U32) {
    /** `_cp_counts_total`. */
    function Total(): nat { related + notRelated + neverCommitted + beyondEnd + failed + notObserved }
  }

  datatype Group = Group(outcome: string, reason: Option<string>, groupType: Option<string>, state: Option<string>,
                         listedState: Option<string>, members: Option<U32>, active: Option<bool>,
                         counts: Option<Counts>)

  datatype Document = Document(key: string, sha256: string, bytes: U64)

  /** The two instants are nanoseconds, as `_rfc3339_ns` reads them. */
  datatype ConsumerPositions = ConsumerPositions(observedFrom: int, observedTo: int, listing: string,
                                                 document: Document,
                                                 groups: map<string, Group>)

  datatype Registry = Registry(captured: bool, reason: Option<string>, snapshotKey: Option<string>,
                               snapshotSha256: Option<string>, subjects: U64, versions: U64,
                               unresolvedReferences: seq<string>, idsNotInSnapshot: seq<int>)

  /** `records` is a count per topic; the shape layer does not bound the counts. */
  datatype Receipt = Receipt(formatVersion: string, runId: string, backupId: string, exitCode: int,
                             manifestKey: Option<string>, topics: seq<string>, authMode: string,
                             records: map<string, int>,
                             fromMs: int, toMs: int,
                             configCoverage: Option<map<string, Coverage>>,
                             topicConfiguration: Option<map<string, TopicModel>>,
                             ownerDetection: Option<seq<string>>,
                             schemaDependency: Option<map<string, Dependency>>,
                             consumerPositions: Option<ConsumerPositions>,
                             generations: Option<map<string, Generation>>,
                             sourceWatermarks: Option<map<string, seq<(U64, U64)>>>,
                             schemaRegistry: Option<Registry>)

  /** `named_topics`, as a set. */
  function NamedTopics(r: Receipt): set<string> { set t | t in r.topics }
}
