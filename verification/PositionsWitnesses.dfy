/** Accepted receipts and documents at which two expectations of the consumer positions fail: a captured position is not
    always below the high watermark, and the six counts do not always cover every partition. */
module PositionsWitnesses {
  import opened Basics
  import opened ConsumerPositions
  import opened PositionsTheorems
  import Decimal
  import Receipt
  import ReceiptArms
  import Versions

  // ---- one topic, one captured group -----------------------------------------------------------

  const KEY: string := "logweir/backups/" + "b" + "/" + "r" + ".consumer-positions.json"

  const DIGEST: string := "sha256:" + Decimal.Zeros(64)

  function GroupWith(counts: Receipt.Counts): Receipt.Group {
    Receipt.Group("captured", None, Some("classic"), Some("Empty"), Some("Empty"), Some(0), Some(false), Some(counts))
  }

  function BlockWith(counts: Receipt.Counts): Receipt.ConsumerPositions {
    Receipt.ConsumerPositions(0, 0, "complete", Receipt.Document(KEY, DIGEST, 1), map["g" := GroupWith(counts)])
  }

  function ReceiptWith(counts: Receipt.Counts): Receipt.Receipt {
    Receipt.Receipt("1.7.0", "r", "b", 0, Some("m"), ["a"], "plaintext", map["a" := 0], 0, 1, None, None, None, None,
                    Some(BlockWith(counts)), None, None, None)
  }

  function DocumentWith(t: TopicFacts, p: GroupPositions): PositionsDocument {
    PositionsDocument("1.7.0", "b", "r", map["a" := t], map["g" := p])
  }

  lemma ReadableVersion()
    ensures ReceiptArms.IsReadable("1.7.0") && ReceiptArms.ReceiptMinor("1.7.0") == 7
  {
    Versions.FieldsOfThreeDigits('1', '7', '0');
    assert Decimal.Number("1") == 1 && Decimal.Number("7") == 7 && Decimal.Number("0") == 0 by { hide Versions.Fields; }
    assert Versions.Semver("1.7.0") == Some((1, 7, 0)) by { hide Versions.Fields, Decimal.Number; }
  }

  lemma HeadHolds(counts: Receipt.Counts)
    ensures ReceiptArms.HeadFault(ReceiptWith(counts), 7).None?
  {
    var r := ReceiptWith(counts);
    assert r.topics == ["a"];
    assert Receipt.NamedTopics(r) == {"a"} == r.records.Keys;
    assert !Versions.RustBlank("m") by { assert "m"[0] == 'm'; }
  }

  lemma BlockHolds(counts: Receipt.Counts)
    requires counts.Total() >= 1
    ensures ReceiptArms.PositionsFault(Some(BlockWith(counts)), "b", "r", 7).None?
  {
    hide FirstInOrder;
    var block := BlockWith(counts);
    assert "g" in block.groups;
    assert Versions.IsSha256Prefixed(DIGEST) by { assert DIGEST[..7] == "sha256:"; }
    assert ReceiptArms.GroupFault(GroupWith(counts)).None?;
    NoFaultInOrder(block.groups, ReceiptArms.GroupFaults());
  }

  lemma ReceiptHolds(counts: Receipt.Counts)
    requires counts.Total() >= 1
    ensures ReceiptArms.Accepted(ReceiptWith(counts))
  {
    hide ReceiptArms.HeadFault, ReceiptArms.PositionsFault, ReceiptArms.IsReadable, ReceiptArms.ReceiptMinor;
    ReadableVersion();
    HeadHolds(counts);
    BlockHolds(counts);
  }

  lemma TopicsHold(t: TopicFacts)
    requires TopicFault(t).None?
    ensures FirstInOrder(map["a" := t], TopicFaults()).None?
  {
    hide TopicFault, FirstInOrder;
    assert TopicFaults()("a", t).None?;
    NoFaultInOrder(map["a" := t], TopicFaults());
  }

  lemma GroupsHold(counts: Receipt.Counts, t: TopicFacts, p: GroupPositions)
    requires GroupFault(GroupWith(counts), Some(p), map["a" := t]).None?
    ensures FirstInOrder(BlockWith(counts).groups, GroupFaults(DocumentWith(t, p))).None?
    ensures CapturedGroups(BlockWith(counts).groups) == {"g"}
  {
    hide GroupFault, FirstInOrder;
    var groups, pd := BlockWith(counts).groups, DocumentWith(t, p);
    assert groups["g"] == GroupWith(counts);
    assert PositionsOf(pd.groups, "g") == Some(p);
    assert GroupFaults(pd)("g", GroupWith(counts)).None?;
    NoFaultInOrder(groups, GroupFaults(pd));
    assert CapturedGroups(groups) == {"g"};
  }

  /** The pair is accepted once its topic and its group's positions hold. */
  lemma PairHolds(counts: Receipt.Counts, t: TopicFacts, p: GroupPositions)
    requires counts.Total() >= 1 && TopicFault(t).None? && GroupFault(GroupWith(counts), Some(p), map["a" := t]).None?
    ensures AcceptedPair(ReceiptWith(counts), DIGEST, 1, DocumentWith(t, p)) && IsCaptured(ReceiptWith(counts), "g")
  {
    hide ReceiptArms.Accepted, GroupFault, FirstInOrder, TopicFault, ReceiptArms.IsReadable, Decimal.Zeros;
    var r, pd := ReceiptWith(counts), DocumentWith(t, p);
    ReceiptHolds(counts);
    ReadableVersion();
    assert r.topics == ["a"];
    assert Receipt.NamedTopics(r) == {"a"} == pd.topics.Keys;
    assert BindingFault(r, DIGEST, 1, pd).None?;
    TopicsHold(t);
    GroupsHold(counts, t, p);
    assert pd.groups.Keys == {"g"};
  }

  // ---- a captured position beyond the end ---------------------------------------------------------

  const BEYOND: Position := Position("a", 0, "captured", Some(9), None, Some(Word(PositionBeyondEnd)))

  const SHORT_LOG: Facts := Facts(0, true, Some(0), Some(5), None, None, None, None)

  const SHORT_TOPIC: TopicFacts := TopicFacts([SHORT_LOG], false)

  const ONE_POSITION: GroupPositions := GroupPositions(0, [BEYOND])

  const ONE_NOT_RELATED: Receipt.Counts := Receipt.Counts(0, 1, 0, 0, 0, 0)

  lemma BeyondEntry()
    ensures EntryFault(BEYOND, SHORT_LOG).None? && SlotOf(BEYOND) == NotRelated
  {
    assert Word(PositionBeyondEnd)[0] == 'P' && Word(WithinArchive)[0] == 'w' && Word(AtArchiveEnd)[0] == 'a';
  }

  lemma BeyondGroup()
    ensures GroupFault(GroupWith(ONE_NOT_RELATED), Some(ONE_POSITION), map["a" := SHORT_TOPIC]).None?
  {
    hide EntryFault, SlotOf;
    var topics, entries := map["a" := SHORT_TOPIC], ONE_POSITION.positions;
    BeyondEntry();
    assert At(BEYOND) == ("a", 0);
    assert Places(topics) == {("a", 0)};
    assert Unobserved(topics) == {};
    assert InPlace(entries, 0, topics);
    assert !Changed(topics["a"].partitions);
    assert ChangedTopics(topics) == {} && UnreadTopics(topics) == {};
    assert entries[..0] == [];
    assert CountsOf(0, entries) == Bump(CountsOf(0, []), NotRelated) == ONE_NOT_RELATED;
    assert ListingFits(ONE_POSITION, topics);
    assert EntriesFault(entries, 1, topics).None?;
    assert EntriesFault(entries, 0, topics).None?;
    assert PositionsFault(Some(ONE_NOT_RELATED), ONE_POSITION, topics).None?;
    assert OutcomeFault(GroupWith(ONE_NOT_RELATED), entries, {}, {}).None?;
  }

  lemma BeyondTopic()
    ensures TopicFault(SHORT_TOPIC).None?
  {
    assert FactsFault(0, SHORT_LOG).None?;
    assert PartitionsFault(SHORT_TOPIC.partitions, 1).None?;
    assert !Changed(SHORT_TOPIC.partitions);
  }

  /** An accepted receipt and document may keep, in a captured group, a position beyond the high watermark: arm CP-13
      asks only for the matching coverage word, and the entry counts as not related. */
  lemma CapturedMayBeBeyondTheEnd()
    ensures AcceptedPair(ReceiptWith(ONE_NOT_RELATED), DIGEST, 1, DocumentWith(SHORT_TOPIC, ONE_POSITION))
    ensures IsCaptured(ReceiptWith(ONE_NOT_RELATED), "g") && BEYOND in ONE_POSITION.positions
    ensures BEYOND.status == "captured" && SlotOf(BEYOND) == NotRelated
    ensures BEYOND.position.value > SHORT_LOG.highWatermark.value
  {
    hide GroupFault, EntryFault, SlotOf, TopicFault, AcceptedPair;
    BeyondEntry();
    BeyondTopic();
    BeyondGroup();
    PairHolds(ONE_NOT_RELATED, SHORT_TOPIC, ONE_POSITION);
  }

  // ---- a counter that saturates ----------------------------------------------------------------------

  /** Every partition number a document can hold. */
  const MANY: int := 0x1_0000_0000

  function FactsAt(i: int): Facts
    requires 0 <= i < MANY
  {
    Facts(i, true, None, None, None, None, None, None)
  }

  function FailedAt(i: int): Position
    requires 0 <= i < MANY
  {
    Position("a", i, "failed", None, Some("Unstable"), None)
  }

  function ManyFacts(): (facts: seq<Facts>)
    ensures |facts| == MANY && forall i :: 0 <= i < MANY ==> facts[i] == FactsAt(i)
  {
    seq(MANY, i requires 0 <= i < MANY => FactsAt(i))
  }

  function ManyFailed(): (entries: seq<Position>)
    ensures |entries| == MANY && forall i :: 0 <= i < MANY ==> entries[i] == FailedAt(i)
  {
    seq(MANY, i requires 0 <= i < MANY => FailedAt(i))
  }

  function ManyTopic(): TopicFacts { TopicFacts(ManyFacts(), false) }

  function ManyPositions(): GroupPositions { GroupPositions(0, ManyFailed()) }

  const ALL_FAILED: Receipt.Counts := Receipt.Counts(0, 0, 0, 0, MAX_U32, 0)

  lemma {:induction false} ManyFactsHold(i: nat)
    requires i <= MANY
    ensures PartitionsFault(ManyFacts(), i).None?
    decreases MANY - i
  {
    hide ManyFacts;
    if i < MANY {
      ManyFactsHold(i + 1);
      assert FactsFault(i, FactsAt(i)).None?;
    }
  }

  lemma ManyTopicHolds()
    ensures TopicFault(ManyTopic()).None?
  {
    hide ManyFacts, PartitionsFault;
    ManyFactsHold(0);
    assert !Changed(ManyFacts());
  }

  lemma {:induction false} AllInOneSlot(entries: seq<Position>, s: Slot)
    requires forall i :: 0 <= i < |entries| ==> SlotOf(entries[i]) == s
    ensures forall t: Slot :: NumberIn(t, entries) == if t == s then |entries| else 0
  {
    hide SlotOf;
    if entries != [] { AllInOneSlot(entries[..|entries| - 1], s); }
  }

  lemma FailedEntry(i: int)
    requires 0 <= i < MANY
    ensures EntryFault(FailedAt(i), FactsAt(i)).None? && SlotOf(FailedAt(i)) == Failed
  {
    hide Word;
  }

  lemma ManyAreCounted()
    ensures CountsOf(0, ManyFailed()) == ALL_FAILED && !NothingSaturates(ManyFailed())
  {
    hide ManyFailed, SlotOf, CountsOf, NumberIn;
    var entries := ManyFailed();
    forall i | 0 <= i < MANY ensures SlotOf(entries[i]) == Failed { FailedEntry(i); }
    AllInOneSlot(entries, Failed);
    forall s: Slot ensures InSlot(CountsOf(0, entries), s) == Min(NumberIn(s, entries), MAX_U32) {
      CountersAreClamped(s, 0, entries);
    }
    CountersAreClamped(Failed, 0, entries);
    var c := CountsOf(0, entries);
    assert InSlot(c, Related) == 0 && InSlot(c, NotRelated) == 0 && InSlot(c, BeyondEnd) == 0;
    assert InSlot(c, Failed) == MAX_U32 && InSlot(c, NotObserved) == 0;
    assert NumberIn(Failed, entries) > MAX_U32;
  }

  lemma ManyInPlace(i: int)
    requires 0 <= i < MANY
    ensures InPlace(ManyFailed(), i, map["a" := ManyTopic()])
  {
    hide ManyFailed, ManyFacts;
    assert At(ManyFailed()[i]) == ("a", i);
    assert i > 0 ==> At(ManyFailed()[i - 1]) == ("a", i - 1);
  }

  lemma ManyPlaces()
    ensures |Places(map["a" := ManyTopic()])| == MANY && Unobserved(map["a" := ManyTopic()]) == {}
  {
    hide ManyFacts;
    var topics := map["a" := ManyTopic()];
    PlacesOfOne("a", MANY);
    assert Places(topics) == set i | 0 <= i < MANY :: ("a", i);
  }

  lemma {:induction false} ManyEntriesHold(i: nat)
    requires i <= MANY && forall j :: 0 <= j < MANY ==> InPlace(ManyFailed(), j, map["a" := ManyTopic()])
    ensures EntriesFault(ManyFailed(), i, map["a" := ManyTopic()]).None?
    decreases MANY - i
  {
    hide ManyFailed, ManyFacts, EntryFault, InPlace;
    if i < MANY {
      ManyEntriesHold(i + 1);
      FailedEntry(i);
      ManyInPlace(i);
      assert ManyFailed()[i] == FailedAt(i) && At(FailedAt(i)) == ("a", i);
      assert IsPlace(map["a" := ManyTopic()], ("a", i)) && FactsOf(map["a" := ManyTopic()], ("a", i)) == FactsAt(i);
    }
  }

  lemma ManyGroup()
    ensures GroupFault(GroupWith(ALL_FAILED), Some(ManyPositions()), map["a" := ManyTopic()]).None?
  {
    hide ManyFailed, ManyFacts, CountsOf, EntriesFault, InPlace, Places, Unobserved, NothingSaturates;
    var topics := map["a" := ManyTopic()];
    forall i | 0 <= i < MANY ensures InPlace(ManyFailed(), i, topics) { ManyInPlace(i); }
    ManyPlaces();
    ManyEntriesHold(0);
    ManyAreCounted();
    assert !Changed(ManyFacts());
    assert ChangedTopics(topics) == {} && UnreadTopics(topics) == {};
    assert ListingFits(ManyPositions(), topics);
    assert PositionsFault(Some(ALL_FAILED), ManyPositions(), topics).None?;
    assert OutcomeFault(GroupWith(ALL_FAILED), ManyFailed(), {}, {}).None?;
  }

  /** An accepted receipt and document whose counts miss a partition: a topic of 2 to the 32 partitions, each of which
      failed, is counted as one fewer. */
  lemma CountsMayMissAPartition()
    ensures AcceptedPair(ReceiptWith(ALL_FAILED), DIGEST, 1, DocumentWith(ManyTopic(), ManyPositions()))
    ensures IsCaptured(ReceiptWith(ALL_FAILED), "g")
    ensures ALL_FAILED.Total() == |Places(map["a" := ManyTopic()])| - 1
  {
    hide GroupFault, TopicFault, AcceptedPair, Places, ManyFacts, ManyFailed;
    ManyTopicHolds();
    ManyGroup();
    ManyPlaces();
    PairHolds(ALL_FAILED, ManyTopic(), ManyPositions());
  }
}
