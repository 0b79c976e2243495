/** What an accepted backup receipt says, once its blocks are read together. */
module ReceiptTheorems {
  import opened Basics
  import opened Decimal
  import opened Versions
  import opened Receipt
  import opened ReceiptArms

  /** No block of an accepted receipt fails, each judged on its own. */
  lemma EveryBlockHolds(r: Receipt)
    requires Accepted(r)
    ensures IsReadable(r.formatVersion)
    ensures var minor := ReceiptMinor(r.formatVersion);
      && HeadFault(r, minor).None?
      && CoverageBlockFault(r.configCoverage, NamedTopics(r), minor).None?
      && ModelBlockFault(r.topicConfiguration, r.configCoverage, NamedTopics(r), minor).None?
      && OwnersFault(r.ownerDetection, r.topicConfiguration).None?
      && DependencyBlockFault(r.schemaDependency, NamedTopics(r), r.records, minor).None?
      && PositionsFault(r.consumerPositions, r.backupId, r.runId, minor).None?
      && GenerationsFault(r.generations, NamedTopics(r), minor).None?
      && WatermarksFault(r.sourceWatermarks, NamedTopics(r), r.records, r.fromMs == r.toMs, minor).None?
      && RegistryFault(r.schemaRegistry, r.backupId, r.runId, minor).None?
  {
    hide HeadFault, CoverageBlockFault, ModelBlockFault, OwnersFault, DependencyBlockFault, PositionsFault,
         GenerationsFault, WatermarksFault, RegistryFault, IsReadable, ReceiptMinor;
  }

  // ---- raising the minor ------------------------------------------------------------------------

  /** Every versioned field the receipt carries is defined at a minor. */
  predicate GatesOpen(r: Receipt, minor: nat) {
    && (IsAddedMode(r.authMode) ==> minor >= 4)
    && (r.configCoverage.Some? ==> minor >= 1)
    && (r.topicConfiguration.Some? ==> minor >= 3)
    && (r.schemaDependency.Some? ==> minor >= 5)
    && (r.consumerPositions.Some? ==> minor >= 7)
    && (r.generations.Some? ==> minor >= 6)
    && (r.sourceWatermarks.Some? ==> minor >= 8)
    && (r.schemaRegistry.Some? ==> minor >= 9)
  }

  lemma HeadTurnsOnItsGate(r: Receipt, minor: nat, later: nat)
    requires minor <= later
    ensures HeadFault(r, minor).None? <==> HeadFault(r, later).None? && (IsAddedMode(r.authMode) ==> minor >= 4)
  {
    hide NamedTopics, Named, IsAddedMode, IsOriginalMode;
  }

  lemma BlocksTurnOnTheirGates(r: Receipt, minor: nat, later: nat)
    requires minor <= later
    ensures CoverageBlockFault(r.configCoverage, NamedTopics(r), minor).None? <==>
            CoverageBlockFault(r.configCoverage, NamedTopics(r), later).None? && (r.configCoverage.Some? ==> minor >= 1)
    ensures ModelBlockFault(r.topicConfiguration, r.configCoverage, NamedTopics(r), minor).None? <==>
            ModelBlockFault(r.topicConfiguration, r.configCoverage, NamedTopics(r), later).None?
            && (r.topicConfiguration.Some? ==> minor >= 3)
    ensures DependencyBlockFault(r.schemaDependency, NamedTopics(r), r.records, minor).None? <==>
            DependencyBlockFault(r.schemaDependency, NamedTopics(r), r.records, later).None?
            && (r.schemaDependency.Some? ==> minor >= 5)
    ensures PositionsFault(r.consumerPositions, r.backupId, r.runId, minor).None? <==>
            PositionsFault(r.consumerPositions, r.backupId, r.runId, later).None?
            && (r.consumerPositions.Some? ==> minor >= 7)
    ensures GenerationsFault(r.generations, NamedTopics(r), minor).None? <==>
            GenerationsFault(r.generations, NamedTopics(r), later).None? && (r.generations.Some? ==> minor >= 6)
    ensures WatermarksFault(r.sourceWatermarks, NamedTopics(r), r.records, r.fromMs == r.toMs, minor).None? <==>
            WatermarksFault(r.sourceWatermarks, NamedTopics(r), r.records, r.fromMs == r.toMs, later).None?
            && (r.sourceWatermarks.Some? ==> minor >= 8)
    ensures RegistryFault(r.schemaRegistry, r.backupId, r.runId, minor).None? <==>
            RegistryFault(r.schemaRegistry, r.backupId, r.runId, later).None? && (r.schemaRegistry.Some? ==> minor >= 9)
  {
    hide NamedTopics, FirstInOrder, IsEmptyCapture, NamesItsSnapshot, ListsHold, IsCaptureReason, IsSha256Prefixed;
  }

  lemma MinorsAgree(r: Receipt, minor: nat, later: nat)
    requires minor <= later
    ensures FaultAt(r, minor).None? <==> FaultAt(r, later).None? && GatesOpen(r, minor)
  {
    hide HeadFault, CoverageBlockFault, ModelBlockFault, OwnersFault, DependencyBlockFault, PositionsFault,
         GenerationsFault, WatermarksFault, RegistryFault, IsAddedMode;
    HeadTurnsOnItsGate(r, minor, later);
    BlocksTurnOnTheirGates(r, minor, later);
  }

  /** No arm after the first reads the version but through its minor. */
  lemma OnlyTheMinorIsRead(r: Receipt, version: string, minor: nat)
    ensures FaultAt(r, minor) == FaultAt(r.(formatVersion := version), minor)
    ensures GatesOpen(r, minor) == GatesOpen(r.(formatVersion := version), minor)
  {
    hide NamedTopics, CoverageBlockFault, ModelBlockFault, OwnersFault, DependencyBlockFault, PositionsFault,
         GenerationsFault, WatermarksFault, RegistryFault, IsAddedMode, AuthFault, WindowFault, Named;
    assert NamedTopics(r) == NamedTopics(r.(formatVersion := version)) by { SameTopics(r, version); }
  }

  lemma SameTopics(r: Receipt, version: string)
    ensures NamedTopics(r) == NamedTopics(r.(formatVersion := version))
  {
    assert r.topics == r.(formatVersion := version).topics;
  }

  /** Two readable versions judge a receipt alike, except that the older refuses a field it does not define. */
  lemma AnOlderMinorOnlyClosesGates(r: Receipt, later: string)
    requires IsReadable(r.formatVersion) && IsReadable(later) && ReceiptMinor(r.formatVersion) <= ReceiptMinor(later)
    ensures Accepted(r) <==> Accepted(r.(formatVersion := later)) && GatesOpen(r, ReceiptMinor(r.formatVersion))
  {
    hide FaultAt, GatesOpen, IsReadable, ReceiptMinor;
    MinorsAgree(r, ReceiptMinor(r.formatVersion), ReceiptMinor(later));
    OnlyTheMinorIsRead(r, later, ReceiptMinor(later));
  }

  /** Raising the minor, and changing nothing else, never loses an accept. */
  lemma MinorUpgrade(r: Receipt, later: string)
    requires Accepted(r) && IsReadable(later) && ReceiptMinor(r.formatVersion) <= ReceiptMinor(later)
    ensures Accepted(r.(formatVersion := later))
  {
    hide FaultAt, GatesOpen, IsReadable, ReceiptMinor;
    assert IsReadable(r.formatVersion);
    AnOlderMinorOnlyClosesGates(r, later);
  }

  // ---- one topic set --------------------------------------------------------------------------------

  predicate Covers<T>(block: Option<map<string, T>>, topics: set<string>) { block.Some? ==> block.value.Keys == topics }

  /** Every block an accepted receipt carries is about the same topics. */
  lemma BlocksShareTheirTopics(r: Receipt)
    requires Accepted(r)
    ensures r.records.Keys == NamedTopics(r)
    ensures Covers(r.configCoverage, NamedTopics(r)) && Covers(r.topicConfiguration, NamedTopics(r))
    ensures Covers(r.schemaDependency, NamedTopics(r)) && Covers(r.generations, NamedTopics(r))
    ensures Covers(r.sourceWatermarks, NamedTopics(r))
    ensures r.topicConfiguration.Some? ==> r.configCoverage.Some?
  {
    hide Accepted, NamedTopics, FirstInOrder, IsEmptyCapture, IsReadable, ReceiptMinor, OwnersFault, PositionsFault,
         RegistryFault, AuthFault, WindowFault, Named;
    EveryBlockHolds(r);
  }

  // ---- what an empty window says --------------------------------------------------------------------

  lemma EmptyWindowIsEmptyCapture(r: Receipt)
    requires Accepted(r) && r.fromMs == r.toMs
    ensures r.sourceWatermarks.Some? && IsEmptyCapture(r.records, r.sourceWatermarks.value)
  {
    hide Accepted, NamedTopics, FirstInOrder, IsEmptyCapture, IsReadable, ReceiptMinor, OwnersFault, PositionsFault,
         RegistryFault, AuthFault, Named, CoverageBlockFault, ModelBlockFault, DependencyBlockFault, GenerationsFault;
    EveryBlockHolds(r);
  }

  lemma JudgedTopic(r: Receipt, topic: string)
    requires Accepted(r) && r.schemaDependency.Some? && topic in r.schemaDependency.value
    ensures topic in r.records && DependencyFault(r.schemaDependency.value[topic], r.records[topic]).None?
  {
    hide Accepted, NamedTopics, FirstInOrder, IsReadable, ReceiptMinor, DependencyFault, OwnersFault, PositionsFault,
         RegistryFault, CoverageBlockFault, ModelBlockFault, GenerationsFault, WatermarksFault, HeadFault;
    EveryBlockHolds(r);
    BlocksShareTheirTopics(r);
    NoFaultInOrder(r.schemaDependency.value, DependencyFaults(r.records));
    assert topic in r.schemaDependency.value.Keys;
    assert Counted(r.records, topic) == r.records[topic];
  }

  /** An accepted empty window counts no record, saw every partition empty, and judges no topic. */
  lemma EmptyWindow(r: Receipt)
    requires Accepted(r) && r.fromMs == r.toMs
    ensures r.sourceWatermarks.Some? && r.sourceWatermarks.value.Keys == r.records.Keys
    ensures forall t :: t in r.records ==> r.records[t] <= 0
    ensures (forall t :: t in r.records ==> r.records[t] == 0) <==> (forall t :: t in r.records ==> r.records[t] >= 0)
    ensures forall t, i :: t in r.sourceWatermarks.value && 0 <= i < |r.sourceWatermarks.value[t]| ==>
              r.sourceWatermarks.value[t][i].0 == r.sourceWatermarks.value[t][i].1
    ensures forall t :: r.schemaDependency.Some? && t in r.schemaDependency.value ==>
              r.schemaDependency.value[t].verdict == "notAssessed"
  {
    hide Accepted, NamedTopics;
    EmptyWindowIsEmptyCapture(r);
    BlocksShareTheirTopics(r);
    if r.schemaDependency.Some? {
      forall t | t in r.schemaDependency.value ensures r.schemaDependency.value[t].verdict == "notAssessed" {
        JudgedTopic(r, t);
        NothingToJudge(r.schemaDependency.value[t], r.records[t]);
      }
    }
  }

  lemma NothingToJudge(d: Dependency, counted: int)
    requires DependencyFault(d, counted).None? && counted <= 0
    ensures d.verdict == "notAssessed"
  {
    hide SideFault, IsNotAssessedReason;
  }

  const NEGATIVE_COUNT: Receipt :=
    Receipt("1.8.0", "r", "b", 0, Some("m"), ["a"], "plaintext", map["a" := -1], 0, 0, None, None, None,
            None, None, None,
            Some(map["a" := [(0, 0)]]), None)

  lemma VersionOneEight()
    ensures IsReadable("1.8.0") && ReceiptMinor("1.8.0") == 8
  {
    FieldsOfThreeDigits('1', '8', '0');
    assert Number("1") == 1 && Number("8") == 8 && Number("0") == 0 by { hide Fields; }
    assert Semver("1.8.0") == Some((1, 8, 0)) by { hide Fields, Number; }
  }

  /** The counts are not bounded below: an accepted empty capture may count minus one record. */
  lemma CountsMayBeNegative()
    ensures Accepted(NEGATIVE_COUNT) && NEGATIVE_COUNT.fromMs == NEGATIVE_COUNT.toMs
            && NEGATIVE_COUNT.records["a"] == -1
  {
    hide HeadFault, WatermarksFault, IsReadable, ReceiptMinor;
    VersionOneEight();
    NegativeCountHead();
    NegativeCountWatermarks();
  }

  lemma NegativeCountHead()
    ensures HeadFault(NEGATIVE_COUNT, 8).None?
  {
    var r := NEGATIVE_COUNT;
    assert r.topics == ["a"];
    assert NamedTopics(r) == {"a"} == r.records.Keys;
    assert !RustBlank("m") by { assert "m"[0] == 'm'; }
  }

  lemma NegativeCountWatermarks()
    ensures WatermarksFault(NEGATIVE_COUNT.sourceWatermarks, NamedTopics(NEGATIVE_COUNT), NEGATIVE_COUNT.records,
                            true, 8).None?
  {
    var r := NEGATIVE_COUNT;
    assert r.topics == ["a"];
    assert NamedTopics(r) == {"a"} == r.sourceWatermarks.value.Keys;
    NoFaultInOrder(r.sourceWatermarks.value, PairsFaults()) by { hide FirstInOrder; }
  }

  // ---- what was judged and what was counted ------------------------------------------------------------

  function Sum(m: map<string, int>, keys: set<string>): int
    requires keys <= m.Keys
    decreases |keys|
  {
    if keys == {} then 0 else Sum(m, keys - {Least(keys)}) + m[Least(keys)]
  }

  /** How many records of each topic the schema detection judged. */
  function Judged(block: map<string, Dependency>): map<string, int> { map t | t in block :: JudgedOf(block[t]) }

  lemma {:induction false} SumIsMonotone(a: map<string, int>, b: map<string, int>, keys: set<string>)
    requires keys <= a.Keys && keys <= b.Keys
    requires forall t :: t in keys ==> a[t] <= b[t]
    ensures Sum(a, keys) <= Sum(b, keys)
    decreases |keys|
  {
    if keys != {} { SumIsMonotone(a, b, keys - {Least(keys)}); }
  }

  lemma JudgedAgainstCounted(d: Dependency, counted: int)
    requires DependencyFault(d, counted).None?
    ensures d.basis == Some("complete") ==> JudgedOf(d) == counted
    ensures counted >= 0 ==> JudgedOf(d) <= counted
  {
    hide SideFault, IsNotAssessedReason;
  }

  /** Judged completely, the judged records are the counted ones, topic by topic and so in total; otherwise no more of
      them. */
  lemma JudgedRecordsAreCounted(r: Receipt)
    requires Accepted(r) && r.schemaDependency.Some?
    ensures (forall t :: t in r.schemaDependency.value ==> r.schemaDependency.value[t].basis == Some("complete")) ==>
              Judged(r.schemaDependency.value) == r.records
    ensures Judged(r.schemaDependency.value).Keys == r.records.Keys
    ensures (forall t :: t in r.records ==> r.records[t] >= 0) ==>
              Sum(Judged(r.schemaDependency.value), r.records.Keys) <= Sum(r.records, r.records.Keys)
  {
    hide Accepted, DependencyFault, NamedTopics;
    var block := r.schemaDependency.value;
    BlocksShareTheirTopics(r);
    forall t | t in block
      ensures block[t].basis == Some("complete") ==> JudgedOf(block[t]) == r.records[t]
      ensures r.records[t] >= 0 ==> JudgedOf(block[t]) <= r.records[t]
    {
      JudgedTopic(r, t);
      JudgedAgainstCounted(block[t], r.records[t]);
    }
    if forall t :: t in r.records ==> r.records[t] >= 0 {
      SumIsMonotone(Judged(block), r.records, r.records.Keys);
    }
  }

  lemma VerdictOfSides(d: Dependency, counted: int)
    requires DependencyFault(d, counted).None?
    ensures d.key.Some? == d.value.Some? == (d.verdict != "notAssessed")
    ensures d.key.Some? ==>
              ((d.verdict == "schemaDependent") <==>
               DependentByShare(d.key.value.framed, d.key.value.unframed)
               || DependentByShare(d.value.value.framed, d.value.value.unframed))
  {
    hide IdsFit, BasisFits, DependentByShare;
  }

  /** A judged topic is schema-dependent exactly when one in ten of a side's non-null records, and at least one, is
      framed. */
  lemma VerdictIsTheThreshold(r: Receipt, topic: string)
    requires Accepted(r) && r.schemaDependency.Some? && topic in r.schemaDependency.value
    ensures var d := r.schemaDependency.value[topic];
      && d.key.Some? == d.value.Some? == (d.verdict != "notAssessed")
      && (d.key.Some? ==>
            ((d.verdict == "schemaDependent") <==>
             (d.key.value.framed >= 1 && 9 * d.key.value.framed >= d.key.value.unframed)
             || (d.value.value.framed >= 1 && 9 * d.value.value.framed >= d.value.value.unframed)))
  {
    hide Accepted, DependencyFault;
    JudgedTopic(r, topic);
    VerdictOfSides(r.schemaDependency.value[topic], r.records[topic]);
  }

  // ---- configuration entries and the read behind them -----------------------------------------------------

  lemma ModelledTopic(r: Receipt, topic: string)
    requires Accepted(r) && r.topicConfiguration.Some? && topic in r.topicConfiguration.value
    ensures r.configCoverage.Some? && topic in r.configCoverage.value
    ensures TopicModelFault(topic, r.topicConfiguration.value[topic], r.configCoverage.value).None?
  {
    hide Accepted, NamedTopics, FirstInOrder, IsReadable, ReceiptMinor, TopicModelFault, OwnersFault, PositionsFault,
         RegistryFault, CoverageBlockFault, DependencyBlockFault, GenerationsFault, WatermarksFault, HeadFault;
    EveryBlockHolds(r);
    BlocksShareTheirTopics(r);
    NoFaultInOrder(r.topicConfiguration.value, TopicModelFaults(r.configCoverage.value));
  }

  lemma EntriesOfAModel(topic: string, t: TopicModel, coverage: map<string, Coverage>)
    requires TopicModelFault(topic, t, coverage).None? && topic in coverage
    ensures t.entries.Some? <==> ReadSucceeded(coverage[topic])
    ensures t.entries.Some? ==>
              forall k :: k in t.entries.value ==>
                (t.entries.value[k].portability == "secret") == t.entries.value[k].value.None?
  {
    hide OwnerHolds, ReadSucceeded, FirstInOrder, EntryFault;
    if t.entries.Some? {
      NoFaultInOrder(t.entries.value, EntryFaults());
      forall k | k in t.entries.value
        ensures (t.entries.value[k].portability == "secret") == t.entries.value[k].value.None?
      {
        SecretEntry(t.entries.value[k]);
      }
    }
  }

  lemma SecretEntry(e: ConfigEntry)
    requires EntryFault(e).None?
    ensures (e.portability == "secret") == e.value.None?
  {
    hide IsConfigSource, IsPortability;
  }

  /** A topic's entries are recorded exactly when its configuration was read, and no secret among them carries its
      value. */
  lemma EntriesFollowTheRead(r: Receipt, topic: string)
    requires Accepted(r) && r.topicConfiguration.Some? && topic in NamedTopics(r)
    ensures r.configCoverage.Some? && topic in r.topicConfiguration.value && topic in r.configCoverage.value
    ensures var t := r.topicConfiguration.value[topic];
      && (t.entries.Some? <==> ReadSucceeded(r.configCoverage.value[topic]))
      && (t.entries.Some? ==>
            forall k :: k in t.entries.value ==>
              (t.entries.value[k].portability == "secret") == t.entries.value[k].value.None?)
  {
    hide Accepted, NamedTopics, TopicModelFault, ReadSucceeded;
    BlocksShareTheirTopics(r);
    ModelledTopic(r, topic);
    EntriesOfAModel(topic, r.topicConfiguration.value[topic], r.configCoverage.value);
  }
}
