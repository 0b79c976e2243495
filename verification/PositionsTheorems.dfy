/** What an accepted receipt and consumer-positions document say together: conservation. */
module PositionsTheorems {
  import opened Basics
  import opened ConsumerPositions
  import Receipt
  import ReceiptArms
  import Versions


  // ---- the saturating counters --------------------------------------------------------------

  function InSlot(c: Receipt.Counts, s: Slot): nat {
    match s
    case Related => c.related
    case NotRelated => c.notRelated
    case BeyondEnd => c.beyondEnd
    case Failed => c.failed
    case NotObserved => c.notObserved
  }

  /** How many entries a slot has, which no 32 bits bound. */
  function NumberIn(s: Slot, entries: seq<Position>): nat {
    if entries == [] then 0
    else NumberIn(s, entries[..|entries| - 1]) + if SlotOf(entries[|entries| - 1]) == s then 1 else 0
  }

  /** A saturating counter holds the true number, clamped once at the end. */
  lemma {:induction false} CountersAreClamped(s: Slot, n: Versions.U32, entries: seq<Position>)
    ensures InSlot(CountsOf(n, entries), s) == Min(NumberIn(s, entries), MAX_U32)
    ensures CountsOf(n, entries).neverCommitted == n
  {
    hide SlotOf;
    if entries != [] { CountersAreClamped(s, n, entries[..|entries| - 1]); }
  }

  lemma {:induction false} EveryEntryHasASlot(entries: seq<Position>)
    ensures NumberIn(Related, entries) + NumberIn(NotRelated, entries) + NumberIn(BeyondEnd, entries)
            + NumberIn(Failed, entries)
            + NumberIn(NotObserved, entries) == |entries|
  {
    hide SlotOf;
    if entries != [] { EveryEntryHasASlot(entries[..|entries| - 1]); }
  }

  predicate NothingSaturates(entries: seq<Position>) { forall s: Slot :: NumberIn(s, entries) <= MAX_U32 }

  /** The six counts add up to the entries and the partitions without one, exactly when no counter saturates. */
  lemma CountsAddUp(n: Versions.U32, entries: seq<Position>)
    ensures CountsOf(n, entries).Total() <= n + |entries|
    ensures CountsOf(n, entries).Total() == n + |entries| <==> NothingSaturates(entries)
    ensures |entries| <= MAX_U32 ==> NothingSaturates(entries)
  {
    hide CountsOf, NumberIn;
    EveryEntryHasASlot(entries);
    forall s: Slot ensures InSlot(CountsOf(n, entries), s) == Min(NumberIn(s, entries), MAX_U32) {
      CountersAreClamped(s, n, entries);
    }
    CountersAreClamped(Related, n, entries);
    assert InSlot(CountsOf(n, entries), Related) == CountsOf(n, entries).related;
    assert InSlot(CountsOf(n, entries), NotRelated) == CountsOf(n, entries).notRelated;
    assert InSlot(CountsOf(n, entries), BeyondEnd) == CountsOf(n, entries).beyondEnd;
    assert InSlot(CountsOf(n, entries), Failed) == CountsOf(n, entries).failed;
    assert InSlot(CountsOf(n, entries), NotObserved) == CountsOf(n, entries).notObserved;
    assert NothingSaturates(entries) <==>
           NumberIn(Related, entries) <= MAX_U32 && NumberIn(NotRelated, entries) <= MAX_U32
           && NumberIn(BeyondEnd, entries) <= MAX_U32 && NumberIn(Failed, entries) <= MAX_U32
           && NumberIn(NotObserved, entries) <= MAX_U32;
  }

  // ---- the listing is a set of places -----------------------------------------------------------

  lemma {:induction false} InOrder(entries: seq<Position>, topics: map<string, TopicFacts>, i: nat, j: nat)
    requires forall k :: 0 <= k < |entries| ==> InPlace(entries, k, topics)
    requires i < j < |entries|
    ensures Earlier(At(entries[i]), At(entries[j]))
    decreases j - i
  {
    hide IsPlace;
    assert InPlace(entries, j, topics);
    if i < j - 1 {
      InOrder(entries, topics, i, j - 1);
      EarlierIsTransitive(At(entries[i]), At(entries[j - 1]), At(entries[j]));
    }
  }

  lemma EarlierIsTransitive(a: Place, b: Place, c: Place)
    requires Earlier(a, b) && Earlier(b, c)
    ensures Earlier(a, c)
  {
    hide Less;
    if Less(a.0, b.0) && Less(b.0, c.0) { LessIsTransitive(a.0, b.0, c.0); }
  }

  lemma EarlierIsIrreflexive(a: Place)
    ensures !Earlier(a, a)
  {
    LessIsTotal(a.0, a.0);
  }

  predicate Distinct(entries: seq<Position>) {
    forall i, j :: 0 <= i < j < |entries| ==> At(entries[i]) != At(entries[j])
  }

  lemma ListingIsDistinct(entries: seq<Position>, topics: map<string, TopicFacts>)
    requires forall k :: 0 <= k < |entries| ==> InPlace(entries, k, topics)
    ensures Distinct(entries)
  {
    hide InPlace;
    forall i, j | 0 <= i < j < |entries| ensures At(entries[i]) != At(entries[j]) {
      InOrder(entries, topics, i, j);
      EarlierIsIrreflexive(At(entries[i]));
    }
  }

  /** The places a slot's entries name. */
  function PlacesIn(s: Slot, entries: seq<Position>): set<Place> {
    set i | 0 <= i < |entries| && SlotOf(entries[i]) == s :: At(entries[i])
  }

  lemma OneMoreEntry(s: Slot, entries: seq<Position>, n: nat)
    requires Distinct(entries) && |entries| == n + 1
    ensures PlacesIn(s, entries) == PlacesIn(s, entries[..n]) + if SlotOf(entries[n]) == s then {At(entries[n])} else {}
    ensures At(entries[n]) !in PlacesIn(s, entries[..n])
  {
    hide SlotOf, At;
    var before := entries[..n];
    assert entries == before + [entries[n]];
    forall at | at in PlacesIn(s, entries)
      ensures at in PlacesIn(s, before) || (SlotOf(entries[n]) == s && at == At(entries[n]))
    {
      var i :| 0 <= i < |entries| && SlotOf(entries[i]) == s && at == At(entries[i]);
      assert i < n ==> before[i] == entries[i];
    }
    forall at | at in PlacesIn(s, before) ensures at in PlacesIn(s, entries) && at != At(entries[n]) {
      var i :| 0 <= i < |before| && SlotOf(before[i]) == s && at == At(before[i]);
      assert before[i] == entries[i];
    }
  }

  lemma {:induction false} SlotCountsItsPlaces(s: Slot, entries: seq<Position>)
    requires Distinct(entries)
    ensures |PlacesIn(s, entries)| == NumberIn(s, entries)
  {
    hide SlotOf, At, PlacesIn;
    if entries == [] {
      assert PlacesIn(s, entries) == {} by { NoPlaces(s); }
    } else {
      var n := |entries| - 1;
      assert Distinct(entries[..n]);
      SlotCountsItsPlaces(s, entries[..n]);
      OneMoreEntry(s, entries, n);
    }
  }

  lemma NoPlaces(s: Slot)
    ensures PlacesIn(s, []) == {}
  {
  }

  lemma {:induction false} ListedAreCounted(entries: seq<Position>)
    requires Distinct(entries)
    ensures |Listed(entries)| == |entries|
  {
    if entries != [] {
      var n := |entries| - 1;
      ListedAreCounted(entries[..n]);
      assert Listed(entries) == Listed(entries[..n]) + {At(entries[n])};
      assert At(entries[n]) !in Listed(entries[..n]);
    }
  }

  // ---- every partition has one place ----------------------------------------------------------------

  function PartitionCount(topics: map<string, TopicFacts>, named: set<string>): nat
    requires named <= topics.Keys
    decreases |named|
  {
    if named == {} then 0 else PartitionCount(topics, named - {Least(named)}) + |topics[Least(named)].partitions|
  }

  function PlacesOf(topics: map<string, TopicFacts>, named: set<string>): set<Place>
    requires named <= topics.Keys
  {
    set t, i | t in named && 0 <= i < |topics[t].partitions| :: (t, i)
  }

  lemma {:induction false} PlacesOfOne(topic: string, n: nat)
    ensures |set i | 0 <= i < n :: (topic, i)| == n
  {
    if n > 0 {
      PlacesOfOne(topic, n - 1);
      assert (set i | 0 <= i < n :: (topic, i)) == (set i | 0 <= i < n - 1 :: (topic, i)) + {(topic, n - 1)};
    }
  }

  lemma {:induction false} PlacesAreCounted(topics: map<string, TopicFacts>, named: set<string>)
    requires named <= topics.Keys
    ensures |PlacesOf(topics, named)| == PartitionCount(topics, named)
    decreases |named|
  {
    if named == {} {
      assert PlacesOf(topics, named) == {};
    } else {
      var t := Least(named);
      var here := set i | 0 <= i < |topics[t].partitions| :: (t, i);
      PlacesAreCounted(topics, named - {t});
      PlacesOfOne(t, |topics[t].partitions|);
      assert PlacesOf(topics, named) == PlacesOf(topics, named - {t}) + here;
      assert PlacesOf(topics, named - {t}) !! here;
    }
  }

  // ---- reading an accepted group ----------------------------------------------------------------------

  lemma {:induction false} EntriesHold(entries: seq<Position>, i: nat, topics: map<string, TopicFacts>)
    requires i <= |entries| && forall j :: 0 <= j < |entries| ==> InPlace(entries, j, topics)
    requires EntriesFault(entries, i, topics).None?
    ensures forall j :: i <= j < |entries| ==> IsPlace(topics, At(entries[j]))
    ensures forall j :: i <= j < |entries| ==> EntryFault(entries[j], FactsOf(topics, At(entries[j]))).None?
    decreases |entries| - i
  {
    hide EntryFault;
    if i < |entries| {
      assert InPlace(entries, i, topics);
      EntriesHold(entries, i + 1, topics);
    }
  }

  /** A captured group of an accepted pair: its positions fit, and the receipt's counts are theirs. */
  predicate GroupHolds(g: Receipt.Group, p: GroupPositions, topics: map<string, TopicFacts>) {
    && ListingFits(p, topics)
    && (forall j :: 0 <= j < |p.positions| ==>
          IsPlace(topics, At(p.positions[j])) && EntryFault(p.positions[j], FactsOf(topics, At(p.positions[j]))).None?)
    && g.counts == Some(CountsOf(p.noCommittedPosition, p.positions))
    && !KeepsAChangedPosition(p.positions, ChangedTopics(topics))
    && UnreadTopics(topics) == {}
  }

  lemma GroupOfNoFault(g: Receipt.Group, p: GroupPositions, topics: map<string, TopicFacts>)
    requires GroupFault(g, Some(p), topics).None? && g.outcome == "captured"
    ensures GroupHolds(g, p, topics)
  {
    hide EntryFault, CountsOf, KeepsAChangedPosition, ChangedTopics, UnreadTopics, IsPlace, Earlier;
    assert PositionsFault(g.counts, p, topics).None?;
    assert ListingFits(p, topics);
    EntriesHold(p.positions, 0, topics);
  }

  predicate AcceptedPair(r: Receipt.Receipt, digest: string, length: nat, pd: PositionsDocument) {
    ReceiptArms.Accepted(r) && Fault(r, digest, length, pd).None?
  }

  predicate IsCaptured(r: Receipt.Receipt, id: string) {
    r.consumerPositions.Some? && id in r.consumerPositions.value.groups
    && r.consumerPositions.value.groups[id].outcome == "captured"
  }

  /** Every captured group of an accepted pair has positions, and they hold. */
  lemma CapturedGroupHolds(r: Receipt.Receipt, digest: string, length: nat, pd: PositionsDocument, id: string)
    requires AcceptedPair(r, digest, length, pd) && IsCaptured(r, id)
    ensures id in pd.groups && GroupHolds(r.consumerPositions.value.groups[id], pd.groups[id], pd.topics)
    ensures pd.topics.Keys == Receipt.NamedTopics(r)
  {
    hide ReceiptArms.Accepted, GroupFault, FirstInOrder, BindingFault, GroupHolds, Receipt.NamedTopics;
    var groups := r.consumerPositions.value.groups;
    BindingNamesABlock(r, digest, length, pd);
    assert CapturedGroups(groups) == pd.groups.Keys && id in CapturedGroups(groups);
    NoFaultInOrder(groups, GroupFaults(pd));
    assert PositionsOf(pd.groups, id) == Some(pd.groups[id]);
    assert GroupFaults(pd)(id, groups[id]) == GroupFault(groups[id], PositionsOf(pd.groups, id), pd.topics);
    GroupOfNoFault(groups[id], pd.groups[id], pd.topics);
  }

  // ---- conservation ------------------------------------------------------------------------------------

  lemma UnobservedAreNotObserved(p: GroupPositions, topics: map<string, TopicFacts>)
    requires ListingFits(p, topics)
    requires forall j :: 0 <= j < |p.positions| ==>
               IsPlace(topics, At(p.positions[j]))
               && EntryFault(p.positions[j], FactsOf(topics, At(p.positions[j]))).None?
    ensures PlacesIn(NotObserved, p.positions) == Unobserved(topics)
    ensures Listed(p.positions) <= Places(topics)
  {
    hide EntryFault, Earlier, SlotOf;
    var entries := p.positions;
    forall j | 0 <= j < |entries|
      ensures At(entries[j]) in Places(topics)
      ensures SlotOf(entries[j]) == NotObserved <==> !FactsOf(topics, At(entries[j])).observed
    {
      SlotOfAnObserved(entries[j], FactsOf(topics, At(entries[j])));
      assert At(entries[j]) == (At(entries[j]).0, At(entries[j]).1);
    }
    forall at | at in Unobserved(topics) ensures at in PlacesIn(NotObserved, entries) {
      assert at in Listed(entries);
    }
  }

  lemma SlotOfAnObserved(p: Position, f: Facts)
    requires EntryFault(p, f).None?
    ensures SlotOf(p) == NotObserved <==> !f.observed
  {
    hide CoverageFits, IsRelated, IsFailedReason, IsNotObservedReason;
  }

  /** The partitions a capture observed and a group has no entry for. */
  function ObservedUnlisted(entries: seq<Position>, topics: map<string, TopicFacts>): set<Place> {
    set at | at in Places(topics) && IsPlace(topics, at) && FactsOf(topics, at).observed && at !in Listed(entries)
  }

  lemma ListingCounts(p: GroupPositions, topics: map<string, TopicFacts>)
    requires ListingFits(p, topics)
    requires PlacesIn(NotObserved, p.positions) == Unobserved(topics) && Listed(p.positions) <= Places(topics)
    ensures NumberIn(NotObserved, p.positions) == |Unobserved(topics)|
    ensures p.noCommittedPosition == |ObservedUnlisted(p.positions, topics)|
  {
    hide NumberIn, SlotOf, InPlace, PlacesIn;
    ListingIsDistinct(p.positions, topics);
    SlotCountsItsPlaces(NotObserved, p.positions);
    ListedAreCounted(p.positions);
    assert ObservedUnlisted(p.positions, topics) == Places(topics) - Listed(p.positions) by {
      forall at | at in Places(topics) - Listed(p.positions) ensures at in ObservedUnlisted(p.positions, topics) {
        assert at !in Unobserved(topics);
        assert IsPlace(topics, at);
      }
    }
  }

  /** For every captured group of an accepted pair: the six counts cover every partition of the named topics, exactly
      when no counter saturates; those not observed are the unobserved partitions, those never committed the observed
      partitions it does not list. */
  lemma Conservation(r: Receipt.Receipt, digest: string, length: nat, pd: PositionsDocument, id: string)
    requires AcceptedPair(r, digest, length, pd) && IsCaptured(r, id)
    ensures pd.topics.Keys == Receipt.NamedTopics(r) && id in pd.groups
    ensures r.consumerPositions.value.groups[id].counts.Some?
    ensures var counts := r.consumerPositions.value.groups[id].counts.value;
      var entries := pd.groups[id].positions;
      && (counts.Total() == PartitionCount(pd.topics, pd.topics.Keys) <==> NothingSaturates(entries))
      && counts.Total() <= PartitionCount(pd.topics, pd.topics.Keys)
      && (PartitionCount(pd.topics, pd.topics.Keys) <= MAX_U32 ==> NothingSaturates(entries))
      && counts.notObserved == Min(|Unobserved(pd.topics)|, MAX_U32)
      && counts.neverCommitted == |ObservedUnlisted(entries, pd.topics)|
  {
    hide AcceptedPair, EntryFault, CountsOf, NumberIn, Unobserved, ObservedUnlisted, InPlace, KeepsAChangedPosition,
         ChangedTopics, NothingSaturates, Receipt.NamedTopics, PartitionCount;
    CapturedGroupHolds(r, digest, length, pd, id);
    var p := pd.groups[id];
    UnobservedAreNotObserved(p, pd.topics);
    ListingCounts(p, pd.topics);
    PlacesAreCounted(pd.topics, pd.topics.Keys);
    assert PlacesOf(pd.topics, pd.topics.Keys) == Places(pd.topics);
    CountsAddUp(p.noCommittedPosition, p.positions);
    CountersAreClamped(NotObserved, p.noCommittedPosition, p.positions);
  }

  /** The unobserved partitions are the same for every captured group. */
  lemma NotObservedIsTheSame(r: Receipt.Receipt, digest: string, length: nat, pd: PositionsDocument, a: string,
                             b: string)
    requires AcceptedPair(r, digest, length, pd) && IsCaptured(r, a) && IsCaptured(r, b)
    ensures r.consumerPositions.value.groups[a].counts.Some? && r.consumerPositions.value.groups[b].counts.Some?
    ensures r.consumerPositions.value.groups[a].counts.value.notObserved
            == r.consumerPositions.value.groups[b].counts.value.notObserved
  {
    hide AcceptedPair, NothingSaturates, Unobserved, ObservedUnlisted, PartitionCount, Receipt.NamedTopics;
    Conservation(r, digest, length, pd, a);
    Conservation(r, digest, length, pd, b);
  }

  // ---- what the slots mean ---------------------------------------------------------------------------------

  /** The position can be resumed from: it is between the partition's marks and inside the archive or one past its
      end. */
  predicate IsResumable(position: int, f: Facts) {
    f.logStart.Some? && f.highWatermark.Some? && f.archivedFirst.Some? && f.archivedLast.Some?
    && f.logStart.value <= position <= f.highWatermark.value
    && f.archivedFirst.value <= position <= Min(f.archivedLast.value + 1, MAX_I64)
  }

  lemma RelatedWords(position: int, f: Facts)
    ensures IsRelated(Some(Word(RelationOf(position, f)))) <==>
            RelationOf(position, f) == WithinArchive || RelationOf(position, f) == AtArchiveEnd
    ensures Word(RelationOf(position, f)) == Word(PositionBeyondEnd) <==> RelationOf(position, f) == PositionBeyondEnd
  {
    hide Word, RelationOf;
    var r := RelationOf(position, f);
    if Word(r) == Word(WithinArchive) { WordsDiffer(r, WithinArchive); }
    if Word(r) == Word(AtArchiveEnd) { WordsDiffer(r, AtArchiveEnd); }
    if Word(r) == Word(PositionBeyondEnd) { WordsDiffer(r, PositionBeyondEnd); }
  }

  lemma EntryMeans(p: Position, f: Facts)
    requires EntryFault(p, f).None?
    ensures p.status == "captured" || p.status == "excluded" <==> p.position.Some?
    ensures p.status == "captured" ==> (SlotOf(p) == Related <==> IsResumable(p.position.value, f))
    ensures p.status == "excluded" ==>
              SlotOf(p) == BeyondEnd && f.highWatermark.Some? && p.position.value > f.highWatermark.value
  {
    hide Word, IsFailedReason, IsNotObservedReason, IsRelated;
    if p.position.Some? {
      RelatedWords(p.position.value, f);
    }
  }

  /** In every captured group, a kept position counts as related exactly when a consumer can resume from it, an excluded
      one lies beyond the high watermark, and none is kept on a topic that changed during the capture. */
  lemma PositionsMean(r: Receipt.Receipt, digest: string, length: nat, pd: PositionsDocument, id: string)
    requires AcceptedPair(r, digest, length, pd) && IsCaptured(r, id)
    ensures id in pd.groups
    ensures forall j :: 0 <= j < |pd.groups[id].positions| ==>
              var p := pd.groups[id].positions[j];
              && IsPlace(pd.topics, At(p))
              && (p.status == "captured" ==>
                    p.position.Some?
                    && (SlotOf(p) == Related <==> IsResumable(p.position.value, FactsOf(pd.topics, At(p)))))
              && (p.status == "excluded" ==>
                    p.position.Some? && SlotOf(p) == BeyondEnd && FactsOf(pd.topics, At(p)).highWatermark.Some?
                    && p.position.value > FactsOf(pd.topics, At(p)).highWatermark.value)
              && (p.position.Some? ==> !Changed(pd.topics[p.topic].partitions))
    ensures forall t :: t in pd.topics ==> pd.topics[t].partitions != []
  {
    hide AcceptedPair, EntryFault, SlotOf, IsResumable, Changed, CountsOf, ListingFits;
    CapturedGroupHolds(r, digest, length, pd, id);
    var entries := pd.groups[id].positions;
    forall j | 0 <= j < |entries|
      ensures IsPlace(pd.topics, At(entries[j]))
      ensures entries[j].status == "captured" ==>
                entries[j].position.Some?
                && (SlotOf(entries[j]) == Related <==>
                    IsResumable(entries[j].position.value, FactsOf(pd.topics, At(entries[j]))))
      ensures entries[j].status == "excluded" ==>
                entries[j].position.Some? && SlotOf(entries[j]) == BeyondEnd
                && FactsOf(pd.topics, At(entries[j])).highWatermark.Some?
                && entries[j].position.value > FactsOf(pd.topics, At(entries[j])).highWatermark.value
      ensures entries[j].position.Some? ==> !Changed(pd.topics[entries[j].topic].partitions)
    {
      EntryMeans(entries[j], FactsOf(pd.topics, At(entries[j])));
      if entries[j].position.Some? {
        assert !(entries[j].topic in ChangedTopics(pd.topics));
      }
    }
    forall t | t in pd.topics ensures pd.topics[t].partitions != [] {
      assert t !in UnreadTopics(pd.topics);
    }
  }

  predicate IsWithinItsMarks(position: int, f: Facts) {
    f.logStart.Some? && f.highWatermark.Some? && position <= f.highWatermark.value
  }

  lemma EntryIsWithinItsMarks(p: Position, f: Facts)
    requires EntryFault(p, f).None? && p.status == "captured"
    ensures p.position.Some? && p.coverage.Some?
    ensures IsWithinItsMarks(p.position.value, f) <==>
            p.coverage != Some(Word(PositionBeyondEnd)) && p.coverage != Some(Word(MarksNotRead))
  {
    hide Word, IsFailedReason, IsNotObservedReason;
    var r := RelationOf(p.position.value, f);
    if Word(r) == Word(PositionBeyondEnd) { WordsDiffer(r, PositionBeyondEnd); }
    if Word(r) == Word(MarksNotRead) { WordsDiffer(r, MarksNotRead); }
  }

  /** A captured position of an accepted pair is at or below the high watermark that was read with its log start exactly
      when its coverage word is neither of the two that say otherwise. */
  lemma CapturedWithinTheMarks(r: Receipt.Receipt, digest: string, length: nat, pd: PositionsDocument, id: string)
    requires AcceptedPair(r, digest, length, pd) && IsCaptured(r, id)
    ensures id in pd.groups
    ensures forall j :: 0 <= j < |pd.groups[id].positions| && pd.groups[id].positions[j].status == "captured" ==>
              var p := pd.groups[id].positions[j];
              IsPlace(pd.topics, At(p)) && p.position.Some?
              && (IsWithinItsMarks(p.position.value, FactsOf(pd.topics, At(p))) <==>
                  p.coverage != Some(Word(PositionBeyondEnd)) && p.coverage != Some(Word(MarksNotRead)))
  {
    hide AcceptedPair, EntryFault, IsWithinItsMarks, CountsOf, ListingFits, Word, KeepsAChangedPosition, ChangedTopics;
    CapturedGroupHolds(r, digest, length, pd, id);
    var entries := pd.groups[id].positions;
    forall j | 0 <= j < |entries| && entries[j].status == "captured"
      ensures IsPlace(pd.topics, At(entries[j])) && entries[j].position.Some?
      ensures IsWithinItsMarks(entries[j].position.value, FactsOf(pd.topics, At(entries[j]))) <==>
              entries[j].coverage != Some(Word(PositionBeyondEnd)) && entries[j].coverage != Some(Word(MarksNotRead))
    {
      EntryIsWithinItsMarks(entries[j], FactsOf(pd.topics, At(entries[j])));
    }
  }
}
