/** The consumer-positions document against the receipt that binds it: arms CP-1 to CP-14 of
    `check_consumer_positions_document`. The digest of the document's bytes is an argument. */
module ConsumerPositions {
  import opened Basics
  import opened Versions
  import Receipt
  import ReceiptArms

  const MAX_U32: int := 0xFFFF_FFFF
  const MAX_I64: int := 0x7FFF_FFFF_FFFF_FFFF

  type I64 = n: int | -0x8000_0000_0000_0000 <= n <= MAX_I64

  /** What the capture saw of one partition. */
  datatype Facts = Facts(partition: U32, observed: bool, logStart: Option<I64>, highWatermark: Option<I64>,
                         logStartAfter: Option<I64>, highWatermarkAfter: Option<I64>,
                         archivedFirst: Option<I64>, archivedLast: Option<I64>)

  datatype TopicFacts = TopicFacts(partitions: seq<Facts>, changedDuringCapture: bool)

  datatype Position = Position(topic: string, partition: U32, status: string, position: Option<I64>,
                               reason: Option<string>,
                               coverage: Option<string>)

  datatype GroupPositions = GroupPositions(noCommittedPosition: U32, positions: seq<Position>)

  datatype PositionsDocument = PositionsDocument(formatVersion: string, backupId: string, runId: string,
                                                 topics: map<string, TopicFacts>, groups: map<string, GroupPositions>)

  datatype Arm = CP1 | CP2 | CP3 | CP4 | CP5 | CP6 | CP7 | CP8 | CP9 | CP10 | CP11 | CP12 | CP13 | CP14

  // ---- a position against its partition ---------------------------------------------------------

  datatype Relation = MarksNotRead | PositionBeyondEnd | BeforeLogStart | NoArchivedData | BeforeArchive | WithinArchive
                    | AtArchiveEnd | BeyondArchive

  /** `_cp_relation`. */
  function RelationOf(position: int, f: Facts): Relation {
    if f.logStart.None? || f.highWatermark.None? then MarksNotRead
    else if position > f.highWatermark.value then PositionBeyondEnd
    else if position < f.logStart.value then BeforeLogStart
    else if f.archivedFirst.None? || f.archivedLast.None? then NoArchivedData
    else if position < f.archivedFirst.value then BeforeArchive
    else if position <= f.archivedLast.value then WithinArchive
    else if position == Min(f.archivedLast.value + 1, MAX_I64) then AtArchiveEnd
    else BeyondArchive
  }

  /** The word a relation is recorded by. */
  function Word(r: Relation): string {
    match r
    case MarksNotRead => "MarksNotRead"
    case PositionBeyondEnd => "PositionBeyondEnd"
    case BeforeLogStart => "beforeLogStart"
    case NoArchivedData => "noArchivedData"
    case BeforeArchive => "beforeArchive"
    case WithinArchive => "withinArchive"
    case AtArchiveEnd => "atArchiveEnd"
    case BeyondArchive => "beyondArchive"
  }

  /** Length and one letter tell the words apart. */
  lemma WordsDiffer(r: Relation, s: Relation)
    requires Word(r) == Word(s)
    ensures r == s
  {
    assert Word(NoArchivedData)[0] == 'n' && Word(BeforeLogStart)[0] == 'b';
    assert Word(BeforeArchive)[2] == 'f' && Word(BeyondArchive)[2] == 'y' && Word(WithinArchive)[2] == 't';
    assert Word(MarksNotRead)[0] == 'M' && Word(AtArchiveEnd)[0] == 'a';
  }

  // ---- the marks -----------------------------------------------------------------------------------

  predicate PairFits(a: Option<I64>, b: Option<I64>) {
    match (a, b)
    case (None, None) => true
    case (Some(low), Some(high)) => 0 <= low <= high
    case _ => false
  }

  predicate MarksFit(f: Facts) {
    PairFits(f.logStart, f.highWatermark) && PairFits(f.logStartAfter, f.highWatermarkAfter)
    && PairFits(f.archivedFirst, f.archivedLast) && (f.observed || (f.logStart.None? && f.highWatermark.None?))
  }

  predicate Fell(before: Option<I64>, after: Option<I64>) { before.Some? && after.Some? && after.value < before.value }

  /** `_cp_changed`. */
  predicate Changed(partitions: seq<Facts>) {
    exists i :: 0 <= i < |partitions|
                && (Fell(partitions[i].logStart, partitions[i].logStartAfter)
                    || Fell(partitions[i].highWatermark, partitions[i].highWatermarkAfter))
  }

  function FactsFault(i: nat, f: Facts): Option<Arm> {
    if f.partition != i then Some(CP5) else if !MarksFit(f) then Some(CP6) else None
  }

  function PartitionsFault(partitions: seq<Facts>, i: nat): Option<Arm>
    requires i <= |partitions|
    decreases |partitions| - i
  {
    if i == |partitions| then None else Then(FactsFault(i, partitions[i]), PartitionsFault(partitions, i + 1))
  }

  function TopicFault(t: TopicFacts): Option<Arm> {
    Then(PartitionsFault(t.partitions, 0), if t.changedDuringCapture != Changed(t.partitions) then Some(CP7) else None)
  }

  function TopicFaults(): (string, TopicFacts) -> Option<Arm> { (topic: string, t: TopicFacts) => TopicFault(t) }

  // ---- places: a named topic and one of its partitions -----------------------------------------------

  type Place = (string, int)

  function Places(topics: map<string, TopicFacts>): set<Place> {
    set t, i | t in topics.Keys && 0 <= i < |topics[t].partitions| :: (t, i)
  }

  predicate IsPlace(topics: map<string, TopicFacts>, at: Place) {
    at.0 in topics && 0 <= at.1 < |topics[at.0].partitions|
  }

  function FactsOf(topics: map<string, TopicFacts>, at: Place): Facts
    requires IsPlace(topics, at)
  {
    topics[at.0].partitions[at.1]
  }

  function ChangedTopics(topics: map<string, TopicFacts>): set<string> {
    set t | t in topics && Changed(topics[t].partitions)
  }

  function UnreadTopics(topics: map<string, TopicFacts>): set<string> {
    set t | t in topics && topics[t].partitions == []
  }

  function At(p: Position): Place { (p.topic, p.partition) }

  predicate Earlier(a: Place, b: Place) { Less(a.0, b.0) || (a.0 == b.0 && a.1 < b.1) }

  // ---- a group's listing --------------------------------------------------------------------------------

  predicate InPlace(entries: seq<Position>, i: nat, topics: map<string, TopicFacts>)
    requires i < |entries|
  {
    IsPlace(topics, At(entries[i])) && (i > 0 ==> Earlier(At(entries[i - 1]), At(entries[i])))
  }

  function Listed(entries: seq<Position>): set<Place> { set i | 0 <= i < |entries| :: At(entries[i]) }

  function Unobserved(topics: map<string, TopicFacts>): set<Place> {
    set at | at in Places(topics) && IsPlace(topics, at) && !FactsOf(topics, at).observed
  }

  /** Arm CP-11. */
  predicate ListingFits(g: GroupPositions, topics: map<string, TopicFacts>) {
    (forall i :: 0 <= i < |g.positions| ==> InPlace(g.positions, i, topics))
    && Unobserved(topics) <= Listed(g.positions)
    && |g.positions| + g.noCommittedPosition == |Places(topics)|
  }

  // ---- one position's arms ---------------------------------------------------------------------------------

  predicate IsFailedReason(reason: string) {
    reason == "TopicNotAuthorized" || reason == "Unstable" || reason == "NotAPosition" || reason == "PartitionFailed"
    || reason == "MarksNotRead"
  }

  predicate IsNotObservedReason(reason: string) {
    reason == "PartitionAddedDuringCapture" || reason == "TopicNotObserved"
  }

  /** Arm CP-12. */
  predicate StatusFits(p: Position, f: Facts) {
    && (match p.status
        case "captured" => p.reason.None?
        case "excluded" => p.reason == Some(Word(PositionBeyondEnd))
        case "failed" => p.reason.Some? && IsFailedReason(p.reason.value)
        case "notObserved" => p.reason.Some? && IsNotObservedReason(p.reason.value)
        case _ => false)
    && p.position.Some? == (p.status == "captured" || p.status == "excluded")
    && (p.position.Some? ==> p.position.value >= 0)
    && (p.status == "notObserved") == !f.observed
  }

  /** Arm CP-13. */
  predicate CoverageFits(p: Position, f: Facts) {
    var derived := if p.position.None? then None else Some(Word(RelationOf(p.position.value, f)));
    var recorded :=
      if p.status == "excluded" then Some(Word(PositionBeyondEnd))
      else if p.status == "captured" then p.coverage
      else None;
    p.coverage.Some? == (p.status == "captured") && recorded == derived
  }

  function EntryFault(p: Position, f: Facts): Option<Arm> {
    if !StatusFits(p, f) then Some(CP12) else if !CoverageFits(p, f) then Some(CP13) else None
  }

  function EntriesFault(entries: seq<Position>, i: nat, topics: map<string, TopicFacts>): Option<Arm>
    requires i <= |entries| && forall j :: 0 <= j < |entries| ==> InPlace(entries, j, topics)
    decreases |entries| - i
  {
    if i == |entries| then None
    else
      assert InPlace(entries, i, topics);
      Then(EntryFault(entries[i], FactsOf(topics, At(entries[i]))), EntriesFault(entries, i + 1, topics))
  }

  // ---- counting, saturating ------------------------------------------------------------------------------------

  datatype Slot = Related | NotRelated | BeyondEnd | Failed | NotObserved

  predicate IsRelated(coverage: Option<string>) {
    coverage == Some(Word(WithinArchive)) || coverage == Some(Word(AtArchiveEnd))
  }

  function SlotOf(p: Position): Slot {
    match p.status
    case "captured" => if IsRelated(p.coverage) then Related else NotRelated
    case "excluded" => BeyondEnd
    case "failed" => Failed
    case _ => NotObserved
  }

  function More(n: U32): U32 { if n + 1 > MAX_U32 then MAX_U32 else n + 1 }

  function Bump(c: Receipt.Counts, s: Slot): Receipt.Counts {
    match s
    case Related => c.(related := More(c.related))
    case NotRelated => c.(notRelated := More(c.notRelated))
    case BeyondEnd => c.(beyondEnd := More(c.beyondEnd))
    case Failed => c.(failed := More(c.failed))
    case NotObserved => c.(notObserved := More(c.notObserved))
  }

  function CountsOf(noCommittedPosition: U32, positions: seq<Position>): Receipt.Counts {
    if positions == [] then Receipt.Counts(0, 0, noCommittedPosition, 0, 0, 0)
    else Bump(CountsOf(noCommittedPosition, positions[..|positions| - 1]), SlotOf(positions[|positions| - 1]))
  }

  /** `_cp_counts_of`. */
  method Count(g: GroupPositions) returns (c: Receipt.Counts)
    ensures c == CountsOf(g.noCommittedPosition, g.positions)
  {
    hide SlotOf, Bump;
    c := Receipt.Counts(0, 0, g.noCommittedPosition, 0, 0, 0);
    for i := 0 to |g.positions|
      invariant c == CountsOf(g.noCommittedPosition, g.positions[..i])
    {
      assert g.positions[..i + 1][..i] == g.positions[..i];
      c := Bump(c, SlotOf(g.positions[i]));
    }
    assert g.positions[..|g.positions|] == g.positions;
  }

  // ---- a group's arms -------------------------------------------------------------------------------------------

  const CHANGED_REASON: string := "GenerationChangedDuringCapture"
  const UNREAD_REASON: string := "PartitionsNotRead"

  predicate KeepsAChangedPosition(entries: seq<Position>, changed: set<string>) {
    exists i :: 0 <= i < |entries| && entries[i].position.Some? && entries[i].topic in changed
  }

  /** The positions the document has for a group. */
  function PositionsOf(groups: map<string, GroupPositions>, id: string): Option<GroupPositions> {
    if id in groups then Some(groups[id]) else None
  }

  /** Arms CP-9 and CP-10. */
  function OutcomeFault(g: Receipt.Group, entries: seq<Position>, changed: set<string>,
                        unread: set<string>): Option<Arm> {
    if KeepsAChangedPosition(entries, changed) || (g.reason == Some(CHANGED_REASON) && changed == {}) then Some(CP9)
    else if (g.outcome == "captured" && unread != {}) || (g.reason == Some(UNREAD_REASON) && unread == {})
    then Some(CP10)
    else None
  }

  /** Arms CP-11 to CP-14. */
  function PositionsFault(counts: Option<Receipt.Counts>, p: GroupPositions,
                          topics: map<string, TopicFacts>): Option<Arm> {
    if !ListingFits(p, topics) then Some(CP11)
    else
      Then(EntriesFault(p.positions, 0, topics),
           if counts != Some(CountsOf(p.noCommittedPosition, p.positions)) then Some(CP14) else None)
  }

  function GroupFault(g: Receipt.Group, p: Option<GroupPositions>, topics: map<string, TopicFacts>): Option<Arm> {
    Then(OutcomeFault(g, if p.Some? then p.value.positions else [], ChangedTopics(topics), UnreadTopics(topics)),
         if p.Some? then PositionsFault(g.counts, p.value, topics) else None)
  }

  function GroupFaults(pd: PositionsDocument): (string, Receipt.Group) -> Option<Arm> {
    (id: string, g: Receipt.Group) => GroupFault(g, PositionsOf(pd.groups, id), pd.topics)
  }

  function CapturedGroups(groups: map<string, Receipt.Group>): set<string> {
    set id | id in groups && groups[id].outcome == "captured"
  }

  /** Arms CP-1 to CP-4. */
  function BindingFault(r: Receipt.Receipt, digest: string, length: nat, pd: PositionsDocument): Option<Arm> {
    if r.consumerPositions.None? then Some(CP1)
    else if digest != r.consumerPositions.value.document.sha256 || length != r.consumerPositions.value.document.bytes
    then Some(CP2)
    else if !ReceiptArms.IsReadable(pd.formatVersion) || pd.backupId != r.backupId || pd.runId != r.runId then Some(CP3)
    else if pd.topics.Keys != Receipt.NamedTopics(r) then Some(CP4)
    else None
  }

  function Fault(r: Receipt.Receipt, digest: string, length: nat, pd: PositionsDocument): Option<Arm> {
    Then(BindingFault(r, digest, length, pd),
    Then(FirstInOrder(pd.topics, TopicFaults()),
    if r.consumerPositions.None? then None
    else
      var groups := r.consumerPositions.value.groups;
      if pd.groups.Keys != CapturedGroups(groups) then Some(CP8) else FirstInOrder(groups, GroupFaults(pd))))
  }

  // ---- the loops --------------------------------------------------------------------------------------------------

  /** The topics read so far, and what the loop over them keeps: `changed`, `unread` and `facts_at`. */
  ghost predicate Gathered(topics: map<string, TopicFacts>, done: set<string>, changed: seq<string>,
                           unread: seq<string>,
                           factsAt: map<Place, Facts>)
    requires done <= topics.Keys
  {
    (forall t :: t in changed <==> t in done && Changed(topics[t].partitions))
    && (forall t :: t in unread <==> t in done && topics[t].partitions == [])
    && (forall at :: at in factsAt <==> at.0 in done && IsPlace(topics, at))
    && forall at :: at in factsAt && IsPlace(topics, at) ==> factsAt[at] == FactsOf(topics, at)
  }

  /** One topic's partitions: arms CP-5 and CP-6, filling `facts_at`. */
  method ReadPartitions(topics: map<string, TopicFacts>, topic: string, before: map<Place, Facts>)
      returns (fault: Option<Arm>, factsAt: map<Place, Facts>)
    requires topic in topics
    ensures fault == PartitionsFault(topics[topic].partitions, 0)
    ensures fault.None? ==>
              forall at :: (at in factsAt <==> at in before || (at.0 == topic && IsPlace(topics, at)))
    ensures fault.None? ==>
              forall at :: at in factsAt ==>
                if at.0 == topic && IsPlace(topics, at) then factsAt[at] == FactsOf(topics, at)
                else at in before && factsAt[at] == before[at]
  {
    hide MarksFit;
    factsAt := before;
    var partitions := topics[topic].partitions;
    for i := 0 to |partitions|
      invariant PartitionsFault(partitions, 0) == PartitionsFault(partitions, i)
      invariant forall at :: (at in factsAt <==> at in before || (at.0 == topic && 0 <= at.1 < i))
      invariant forall at :: at in factsAt ==>
                  if at.0 == topic && 0 <= at.1 < i then factsAt[at] == partitions[at.1]
                  else at in before && factsAt[at] == before[at]
    {
      fault := FactsFault(i, partitions[i]);
      if fault.Some? { return; }
      factsAt := factsAt[(topic, partitions[i].partition as int) := partitions[i]];
    }
    fault := None;
  }

  /** Arms CP-5 to CP-7 over every topic, in name order. */
  method ReadTopics(topics: map<string, TopicFacts>)
      returns (fault: Option<Arm>, changed: seq<string>, unread: seq<string>, factsAt: map<Place, Facts>)
    ensures fault == FirstInOrder(topics, TopicFaults())
    ensures fault.None? ==> Gathered(topics, topics.Keys, changed, unread, factsAt)
  {
    hide Sorted, Least, StrictlySorted, PartitionsFault, Changed;
    changed, unread, factsAt := [], [], map[];
    var order := Sorted(topics.Keys);
    ghost var done: set<string> := {};
    for k := 0 to |order|
      invariant First(topics, order, TopicFaults()) == First(topics, order[k..], TopicFaults())
      invariant done == (set j | 0 <= j < k :: order[j]) && done <= topics.Keys
      invariant Gathered(topics, done, changed, unread, factsAt)
    {
      var topic := order[k];
      assert order[k..][0] == topic && order[k..][1..] == order[k + 1..];
      ghost var was := factsAt;
      fault, factsAt := ReadPartitions(topics, topic, factsAt);
      assert TopicFaults()(topic, topics[topic]) == TopicFault(topics[topic]);
      if fault.Some? { return; }
      var derived := Changed(topics[topic].partitions);
      if topics[topic].changedDuringCapture != derived {
        return Some(CP7), changed, unread, factsAt;
      }
      if derived { changed := changed + [topic]; }
      if topics[topic].partitions == [] { unread := unread + [topic]; }
      done := done + {topic};
      assert Gathered(topics, done, changed, unread, factsAt);
    }
    assert done == topics.Keys;
    fault := None;
  }

  /** Arm CP-11's walk: the first entry out of place. */
  method FirstOutOfPlace(entries: seq<Position>, factsAt: map<Place, Facts>, ghost topics: map<string, TopicFacts>)
      returns (outOfPlace: Option<nat>)
    requires forall at :: at in factsAt <==> IsPlace(topics, at)
    ensures outOfPlace.None? <==> forall i :: 0 <= i < |entries| ==> InPlace(entries, i, topics)
    ensures outOfPlace.Some? ==> outOfPlace.value < |entries| && !InPlace(entries, outOfPlace.value, topics)
                                 && forall i :: 0 <= i < outOfPlace.value ==> InPlace(entries, i, topics)
  {
    hide IsPlace, Earlier;
    for i := 0 to |entries|
      invariant forall j :: 0 <= j < i ==> InPlace(entries, j, topics)
    {
      assert InPlace(entries, i, topics) <==>
             At(entries[i]) in factsAt && (i > 0 ==> Earlier(At(entries[i - 1]), At(entries[i])));
      if At(entries[i]) !in factsAt || (i > 0 && !Earlier(At(entries[i - 1]), At(entries[i]))) {
        return Some(i);
      }
    }
    outOfPlace := None;
  }

  lemma GatheredAll(topics: map<string, TopicFacts>, changed: seq<string>, unread: seq<string>,
                    factsAt: map<Place, Facts>)
    requires Gathered(topics, topics.Keys, changed, unread, factsAt)
    ensures (set t | t in changed) == ChangedTopics(topics) && (set t | t in unread) == UnreadTopics(topics)
    ensures factsAt.Keys == Places(topics)
    ensures forall at :: at in factsAt <==> IsPlace(topics, at)
    ensures (set at | at in factsAt && !factsAt[at].observed) == Unobserved(topics)
  {
    hide Changed;
    forall at ensures at in factsAt.Keys <==> at in Places(topics) {
      assert at in factsAt <==> at.0 in topics.Keys && IsPlace(topics, at);
      assert at == (at.0, at.1);
    }
  }

  /** The arms of one captured group's positions. */
  method CheckPositions(counts: Option<Receipt.Counts>, p: GroupPositions, factsAt: map<Place, Facts>,
                        ghost topics: map<string, TopicFacts>)
      returns (fault: Option<Arm>)
    requires factsAt.Keys == Places(topics)
    requires forall at :: at in factsAt <==> IsPlace(topics, at)
    requires forall at :: at in factsAt ==> factsAt[at] == FactsOf(topics, at)
    requires (set at | at in factsAt && !factsAt[at].observed) == Unobserved(topics)
    ensures fault == PositionsFault(counts, p, topics)
  {
    hide StatusFits, CoverageFits, CountsOf, Unobserved, Places;
    var entries := p.positions;
    var outOfPlace := FirstOutOfPlace(entries, factsAt, topics);
    var listed := Listed(entries);
    var unobserved := set at | at in factsAt && !factsAt[at].observed;
    var unobservedMissing := |unobserved - listed|;
    assert unobservedMissing > 0 <==> !(unobserved <= listed) by {
      if unobserved <= listed { assert unobserved - listed == {}; }
      else { var at :| at in unobserved && at !in listed; assert at in unobserved - listed; }
    }
    assert |factsAt| == |factsAt.Keys|;
    if outOfPlace.Some? || unobservedMissing > 0 || |entries| + p.noCommittedPosition != |factsAt| {
      assert !ListingFits(p, topics);
      return Some(CP11);
    }
    assert ListingFits(p, topics);
    for i := 0 to |entries|
      invariant EntriesFault(entries, 0, topics) == EntriesFault(entries, i, topics)
    {
      assert InPlace(entries, i, topics);
      fault := EntryFault(entries[i], factsAt[At(entries[i])]);
      if fault.Some? { return; }
    }
    var derived := Count(p);
    fault := if counts != Some(derived) then Some(CP14) else None;
  }

  /** `check_consumer_positions_document`: None when the pair holds. */
  method CheckDocument(r: Receipt.Receipt, digest: string, length: nat, pd: PositionsDocument)
    returns (fault: Option<Arm>)
    ensures fault == Fault(r, digest, length, pd)
  {
    hide BindingFault, Sorted, Least, StrictlySorted, PositionsFault, OutcomeFault, ChangedTopics, UnreadTopics,
         Unobserved, Places, IsPlace, FactsOf;
    fault := BindingFault(r, digest, length, pd);
    if fault.Some? { return; }
    assert r.consumerPositions.Some? by { BindingNamesABlock(r, digest, length, pd); }
    var changed, unread, factsAt;
    fault, changed, unread, factsAt := ReadTopics(pd.topics);
    if fault.Some? { return; }
    GatheredAll(pd.topics, changed, unread, factsAt);
    var groups := r.consumerPositions.value.groups;
    if pd.groups.Keys != CapturedGroups(groups) { return Some(CP8); }
    var order := Sorted(groups.Keys);
    for k := 0 to |order|
      invariant First(groups, order, GroupFaults(pd)) == First(groups, order[k..], GroupFaults(pd))
    {
      var id := order[k];
      var g := groups[id];
      assert order[k..][0] == id && order[k..][1..] == order[k + 1..];
      var positions := PositionsOf(pd.groups, id);
      assert GroupFaults(pd)(id, g) == GroupFault(g, positions, pd.topics);
      var entries := if positions.Some? then positions.value.positions else [];
      fault := OutcomeFault(g, entries, set t | t in changed, set t | t in unread);
      if fault.Some? { return; }
      if positions.Some? {
        fault := CheckPositions(g.counts, positions.value, factsAt, pd.topics);
        if fault.Some? { return; }
      }
    }
    fault := None;
  }

  lemma BindingNamesABlock(r: Receipt.Receipt, digest: string, length: nat, pd: PositionsDocument)
    requires BindingFault(r, digest, length, pd).None?
    ensures r.consumerPositions.Some? && pd.topics.Keys == Receipt.NamedTopics(r)
  {
  }
}
