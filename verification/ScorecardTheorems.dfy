/** What an accepted scorecard says, once the arms are read together. */
module ScorecardTheorems {
  import opened Basics
  import opened Decimal
  import opened Instants
  import opened Versions
  import opened Scorecard
  import opened ScorecardArms

  /** No block of an accepted document fails, each judged on its own. */
  lemma EveryBlockHolds(d: Scorecard)
    requires Accepted(d)
    ensures VersionFault(d).None? && PostPutFault(d).None? && OutcomeFault(d).None?
    ensures AuthFault(d.target.auth, d.formatVersion).None? && ParityFault(d, d.formatVersion).None?
    ensures TimeBasisFault(d.source.timeBasis, d.formatVersion).None?
    ensures BlockTotalsHold(d)
    ensures UnsampledFault(d, d.formatVersion).None?
    ensures SelectionFault(d.source.selection, d.integrity.verification, d.formatVersion).None?
    ensures OriginalNameFault(d, d.formatVersion).None? && ConsoleFault(d, d.formatVersion).None?
    ensures ConsoleModeFault(d).None? && CreationFault(d, d.formatVersion).None?
    ensures ConfigurationFault(d.target.topicConfiguration, d.formatVersion).None?
    ensures MappingFault(d, d.formatVersion).None? && SchemasFault(d.target.schemas, d.formatVersion).None?
            && !d.redacted
  {
    hide VersionFault, PostPutFault, OutcomeFault, AuthFault, ParityFault, TimeBasisFault, VerificationFault,
         UnsampledFault, SelectionFault, OriginalNameFault, ConsoleFault, ConsoleModeFault, CreationFault,
         ConfigurationFault, MappingFault, SchemasFault, TotalsOf;
  }

  /** `integrity.verification` against the totals of its own partitions. */
  predicate BlockTotalsHold(d: Scorecard) {
    VerificationFault(d.integrity.verification, d.integrity.result, d.formatVersion,
                      TotalsOf(PartitionsOf(d.integrity.verification))).None?
  }

  /** The converse: a document whose every block holds is accepted. */
  lemma BlocksSuffice(d: Scorecard)
    requires VersionFault(d).None? && PostPutFault(d).None? && OutcomeFault(d).None?
    requires AuthFault(d.target.auth, d.formatVersion).None? && ParityFault(d, d.formatVersion).None?
    requires TimeBasisFault(d.source.timeBasis, d.formatVersion).None?
    requires BlockTotalsHold(d)
    requires UnsampledFault(d, d.formatVersion).None?
    requires SelectionFault(d.source.selection, d.integrity.verification, d.formatVersion).None?
    requires OriginalNameFault(d, d.formatVersion).None? && ConsoleFault(d, d.formatVersion).None?
    requires ConsoleModeFault(d).None? && CreationFault(d, d.formatVersion).None?
    requires ConfigurationFault(d.target.topicConfiguration, d.formatVersion).None?
    requires MappingFault(d, d.formatVersion).None? && SchemasFault(d.target.schemas, d.formatVersion).None?
             && !d.redacted
    ensures Accepted(d)
  {
    hide VersionFault, PostPutFault, OutcomeFault, AuthFault, ParityFault, TimeBasisFault, VerificationFault,
         UnsampledFault, SelectionFault, OriginalNameFault, ConsoleFault, ConsoleModeFault, CreationFault,
         ConfigurationFault, MappingFault, SchemasFault, TotalsOf;
  }

  // ---- the totals are clamped sums, whatever the order -----------------------------------

  /** The twelve counts arm IV-7 adds up. */
  datatype Count = Expected | Restored | Matching | Missing | Unexpected | Duplicates | OutOfOrder | Mismatched
                 | Segments | SegmentsVerified | RecordsDecoded | OffsetHoles

  function OfReplay(c: Count, r: Replay): U64
    requires !(c.Segments? || c.SegmentsVerified? || c.RecordsDecoded? || c.OffsetHoles?)
  {
    match c
    case Expected => r.expected
    case Restored => r.restored
    case Matching => r.matching
    case Missing => r.missing
    case Unexpected => r.unexpected
    case Duplicates => r.duplicates
    case OutOfOrder => r.outOfOrder
    case Mismatched => r.mismatched
  }

  function OfPartition(c: Count, p: Partition): U64 {
    match c
    case Segments => p.segments
    case SegmentsVerified => p.segmentsVerified
    case RecordsDecoded => p.recordsDecoded
    case OffsetHoles => p.offsetHoles
    case _ => OfReplay(c, p.replay)
  }

  function OfTotals(c: Count, t: Totals): U64 {
    match c
    case Segments => t.segments
    case SegmentsVerified => t.segmentsVerified
    case RecordsDecoded => t.recordsDecoded
    case OffsetHoles => t.offsetHoles
    case _ => OfReplay(c, t.replay)
  }

  /** What the complete block states for a count. */
  function Stated(c: Count, block: Complete): U64 {
    match c
    case Segments => block.archive.segments
    case SegmentsVerified => block.archive.segmentsVerified
    case RecordsDecoded => block.archive.recordsDecoded
    case OffsetHoles => block.archive.offsetHoles
    case _ => OfReplay(c, block.replay)
  }

  /** The true sum, which no 64 bits bound. */
  function Sum(c: Count, partitions: seq<Partition>): nat {
    if partitions == [] then 0
    else Sum(c, partitions[..|partitions| - 1]) + OfPartition(c, partitions[|partitions| - 1])
  }

  /** Saturating addition is true addition, clamped once at the end. */
  lemma {:induction false} TotalsAreClampedSums(c: Count, partitions: seq<Partition>)
    ensures OfTotals(c, TotalsOf(partitions)) == Min(Sum(c, partitions), MAX_U64)
  {
    if partitions != [] {
      TotalsAreClampedSums(c, partitions[..|partitions| - 1]);
    }
  }

  lemma {:induction false} SumOfConcat(c: Count, a: seq<Partition>, b: seq<Partition>)
    ensures Sum(c, a + b) == Sum(c, a) + Sum(c, b)
  {
    if b == [] {
      assert a + b == a;
    } else {
      var n := |b| - 1;
      assert (a + b)[..|a + b| - 1] == a + b[..n];
      SumOfConcat(c, a, b[..n]);
    }
  }

  /** Taking out one partition takes out its count. */
  lemma SumWithout(c: Count, s: seq<Partition>, k: nat)
    requires k < |s|
    ensures Sum(c, s) == Sum(c, s[..k] + s[k + 1..]) + OfPartition(c, s[k])
  {
    var upTo := s[..k + 1];
    assert s == upTo + s[k + 1..];
    SumOfConcat(c, upTo, s[k + 1..]);
    SumOfConcat(c, s[..k], s[k + 1..]);
    assert upTo[..|upTo| - 1] == s[..k] && upTo[|upTo| - 1] == s[k];
  }

  lemma {:induction false} SumIgnoresOrder(c: Count, a: seq<Partition>, b: seq<Partition>)
    requires multiset(a) == multiset(b)
    ensures Sum(c, a) == Sum(c, b)
    decreases |a|
  {
    hide OfPartition;
    if a == [] {
      assert |multiset(b)| == 0;
    } else {
      var n := |a| - 1;
      assert a[n] in multiset(b);
      var k :| 0 <= k < |b| && b[k] == a[n];
      SameWithout(a, b, k);
      SumIgnoresOrder(c, a[..n], b[..k] + b[k + 1..]);
      SumWithout(c, b, k);
    }
  }

  lemma SameWithout(a: seq<Partition>, b: seq<Partition>, k: nat)
    requires multiset(a) == multiset(b) && a != [] && k < |b| && b[k] == a[|a| - 1]
    ensures multiset(a[..|a| - 1]) == multiset(b[..k] + b[k + 1..])
  {
    var n := |a| - 1;
    assert a == a[..n] + [a[n]];
    assert b == b[..k] + [b[k]] + b[k + 1..];
    assert multiset(a[..n]) == multiset(a) - multiset{b[k]};
    assert multiset(b[..k] + b[k + 1..]) == multiset(b) - multiset{b[k]};
  }

  /** The order in which the partitions are listed changes no total. */
  lemma TotalsIgnoreOrder(a: seq<Partition>, b: seq<Partition>)
    requires multiset(a) == multiset(b)
    ensures TotalsOf(a) == TotalsOf(b)
  {
    hide TotalsOf;
    forall c: Count ensures OfTotals(c, TotalsOf(a)) == OfTotals(c, TotalsOf(b)) {
      TotalsAreClampedSums(c, a);
      TotalsAreClampedSums(c, b);
      SumIgnoresOrder(c, a, b);
    }
    SameCountsSameTotals(TotalsOf(a), TotalsOf(b));
  }

  lemma SameCountsSameTotals(t: Totals, u: Totals)
    requires forall c: Count :: OfTotals(c, t) == OfTotals(c, u)
    ensures t == u
  {
    assert OfTotals(Expected, t) == OfTotals(Expected, u) && OfTotals(Restored, t) == OfTotals(Restored, u);
    assert OfTotals(Matching, t) == OfTotals(Matching, u) && OfTotals(Missing, t) == OfTotals(Missing, u);
    assert OfTotals(Unexpected, t) == OfTotals(Unexpected, u) && OfTotals(Duplicates, t) == OfTotals(Duplicates, u);
    assert OfTotals(OutOfOrder, t) == OfTotals(OutOfOrder, u) && OfTotals(Mismatched, t) == OfTotals(Mismatched, u);
    assert OfTotals(Segments, t) == OfTotals(Segments, u);
    assert OfTotals(SegmentsVerified, t) == OfTotals(SegmentsVerified, u);
    assert OfTotals(RecordsDecoded, t) == OfTotals(RecordsDecoded, u);
    assert OfTotals(OffsetHoles, t) == OfTotals(OffsetHoles, u);
  }

  // ---- a complete pass --------------------------------------------------------------------

  /** The document claims a pass over a complete verification. */
  predicate ClaimsCompletePass(d: Scorecard) {
    d.outcome == "pass" && d.integrity.verification.Some? && d.integrity.verification.value.coverage == "complete"
  }

  /** The arms of `integrity.verification`, read for a pass. */
  lemma PassingBlockIsClean(v: Verification, version: string, totals: Totals)
    requires VerificationFault(Some(v), "pass", version, totals).None?
    requires v.coverage == "complete"
    ensures v.complete.Some? && Clean(v.complete.value) && TotalsFit(v.complete.value, totals)
  {
    hide Clean, TotalsFit, DefinesFormat1Minor;
  }

  lemma PassMeansPassResult(d: Scorecard)
    requires OutcomeFault(d).None? && d.outcome == "pass"
    ensures d.integrity.result == "pass"
  {
    hide CapturedFault;
  }

  lemma OneExactPartition(p: Partition)
    requires Exact(p.replay)
    ensures p.replay == Replay(p.replay.expected, p.replay.expected, p.replay.expected, 0, 0, 0, 0, 0)
  {
  }

  /** Everything a complete pass entails. */
  predicate IsCompletePass(block: Complete) {
    && block.covered && block.partitions != []
    && block.replay == Replay(block.replay.expected, block.replay.expected, block.replay.expected, 0, 0, 0, 0, 0)
    && (forall i :: 0 <= i < |block.partitions| ==>
          block.partitions[i].compared
          && block.partitions[i].replay
             == Replay(block.partitions[i].replay.expected, block.partitions[i].replay.expected,
                       block.partitions[i].replay.expected, 0, 0, 0, 0, 0))
    && block.archive.segmentsVerified == block.archive.segments
    && block.archive.segmentsFailed == [] && block.archive.segmentsUnverified == []
    && (forall c: Count :: Stated(c, block) == Min(Sum(c, block.partitions), MAX_U64))
  }

  /** Each partition a selection leaves out expected, restored and matched nothing. */
  predicate UnselectedAreEmpty(subsets: seq<TopicPartitions>, block: Complete) {
    forall i :: 0 <= i < |block.partitions| && Unselected(subsets, block.partitions[i]) ==>
      block.partitions[i].replay == NO_REPLAY
  }

  lemma CleanIsCompletePass(block: Complete)
    requires Clean(block) && TotalsFit(block, TotalsOf(block.partitions))
    ensures IsCompletePass(block)
  {
    forall c: Count ensures Stated(c, block) == Min(Sum(c, block.partitions), MAX_U64) {
      StatedIsTheClampedSum(c, block);
    }
    forall i | 0 <= i < |block.partitions|
      ensures block.partitions[i].compared
              && block.partitions[i].replay
                 == Replay(block.partitions[i].replay.expected, block.partitions[i].replay.expected,
                           block.partitions[i].replay.expected, 0, 0, 0, 0, 0)
    {
      OneExactPartition(block.partitions[i]);
    }
  }

  lemma StatedIsTheClampedSum(c: Count, block: Complete)
    requires TotalsFit(block, TotalsOf(block.partitions))
    ensures Stated(c, block) == Min(Sum(c, block.partitions), MAX_U64)
  {
    hide TotalsOf, Sum;
    TotalsAreClampedSums(c, block.partitions);
  }

  /** Arm PS-5, as a statement about the partitions. */
  lemma UnselectedExpectNothing(selection: Selection, v: Verification, version: string)
    requires SelectionFault(Some(selection), Some(v), version).None?
    requires selection.partitions.Some? && v.complete.Some?
    ensures forall i :: 0 <= i < |v.complete.value.partitions|
                        && Unselected(selection.partitions.value, v.complete.value.partitions[i]) ==>
              v.complete.value.partitions[i].replay.expected == 0
  {
    hide Unselected, WellFormedSubsets, DistinctSubsets, Minor;
    assert !ExpectsUnselected(selection.partitions.value, v.complete.value.partitions);
  }

  /** A complete pass means what it says. */
  lemma CompletePass(d: Scorecard)
    requires Accepted(d) && ClaimsCompletePass(d)
    ensures d.integrity.verification.value.complete.Some?
    ensures IsCompletePass(d.integrity.verification.value.complete.value)
    ensures Narrows(d.source.selection) ==>
              UnselectedAreEmpty(d.source.selection.value.partitions.value,
                                 d.integrity.verification.value.complete.value)
  {
    hide VerificationFault, Clean, TotalsFit, SelectionFault, Accepted, OutcomeFault, TotalsOf, IsCompletePass,
         Unselected;
    hide VersionFault, PostPutFault, AuthFault, ParityFault, TimeBasisFault, UnsampledFault, OriginalNameFault,
         ConsoleFault, ConsoleModeFault, CreationFault, ConfigurationFault, MappingFault, SchemasFault;
    EveryBlockHolds(d);
    PassMeansPassResult(d);
    var v := d.integrity.verification.value;
    assert d.integrity.verification == Some(v);
    PassingBlockIsClean(v, d.formatVersion, TotalsOf(PartitionsOf(d.integrity.verification)));
    var block := v.complete.value;
    CleanIsCompletePass(block);
    if Narrows(d.source.selection) {
      assert d.source.selection == Some(d.source.selection.value);
      UnselectedExpectNothing(d.source.selection.value, v, d.formatVersion);
      CompletePassPartition(block);
    }
  }

  lemma CompletePassPartition(block: Complete)
    requires IsCompletePass(block)
    ensures forall i :: 0 <= i < |block.partitions| && block.partitions[i].replay.expected == 0 ==>
              block.partitions[i].replay == NO_REPLAY
  {
    hide Sum, Stated;
    forall i | 0 <= i < |block.partitions| && block.partitions[i].replay.expected == 0
      ensures block.partitions[i].replay == NO_REPLAY
    {
      assert block.partitions[i].compared;
    }
  }

  /** While nothing saturates, a complete pass verified as many segments as it read, summed over its partitions. */
  lemma CompletePassVerifiesEverySegment(d: Scorecard)
    requires Accepted(d) && ClaimsCompletePass(d)
    ensures d.integrity.verification.value.complete.Some?
    ensures var block := d.integrity.verification.value.complete.value;
      Sum(Segments, block.partitions) < U64_END && Sum(SegmentsVerified, block.partitions) < U64_END ==>
        Sum(SegmentsVerified, block.partitions) == Sum(Segments, block.partitions) == block.archive.segments
  {
    hide Accepted, Sum, UnselectedAreEmpty;
    CompletePass(d);
    var block := d.integrity.verification.value.complete.value;
    assert Stated(Segments, block) == Min(Sum(Segments, block.partitions), MAX_U64);
    assert Stated(SegmentsVerified, block) == Min(Sum(SegmentsVerified, block.partitions), MAX_U64);
  }

  predicate NoneBeyondItsSegments(partitions: seq<Partition>) {
    forall i :: 0 <= i < |partitions| ==> partitions[i].segmentsVerified <= partitions[i].segments
  }

  predicate EachVerified(partitions: seq<Partition>) {
    forall i :: 0 <= i < |partitions| ==> partitions[i].segmentsVerified == partitions[i].segments
  }

  /** Counts no higher one by one sum no higher, and sum alike only when alike one by one. */
  lemma {:induction false} SumsOfSegments(partitions: seq<Partition>)
    requires NoneBeyondItsSegments(partitions)
    ensures Sum(SegmentsVerified, partitions) <= Sum(Segments, partitions)
    ensures Sum(SegmentsVerified, partitions) == Sum(Segments, partitions) ==> EachVerified(partitions)
  {
    if partitions != [] {
      var n := |partitions| - 1;
      SumsOfSegments(partitions[..n]);
      if EachVerified(partitions[..n]) {
        forall i | 0 <= i < n ensures partitions[i].segmentsVerified == partitions[i].segments {
          assert partitions[..n][i] == partitions[i];
        }
      }
    }
  }

  /** In an accepted complete pass whose segments do not saturate, every partition's segments were all verified exactly
      when no partition claims more of them verified than it has. */
  lemma SegmentsVerifiedOneByOne(d: Scorecard)
    requires Accepted(d) && ClaimsCompletePass(d)
    ensures d.integrity.verification.value.complete.Some?
    ensures var partitions := d.integrity.verification.value.complete.value.partitions;
      Sum(Segments, partitions) < U64_END ==> (EachVerified(partitions) <==> NoneBeyondItsSegments(partitions))
  {
    hide Accepted, Sum, UnselectedAreEmpty, IsCompletePass;
    CompletePass(d);
    CompletePassVerifiesEverySegment(d);
    var partitions := d.integrity.verification.value.complete.value.partitions;
    if NoneBeyondItsSegments(partitions) { SumsOfSegments(partitions); }
  }

  // ---- majors, subsets and original names -----------------------------------------------------

  lemma SelectionOfMajorOne(selection: Option<Selection>, verification: Option<Verification>, version: string)
    requires SelectionFault(selection, verification, version).None?
    ensures selection.Some? ==> Major(version) == Some(1) || Major(version) == Some(2)
    ensures Major(version) == Some(1) && selection.Some? ==>
              selection.value.windowStart.Some? && selection.value.partitions.None? && selection.value.engineRuns.None?
  {
    hide ExpectsUnselected, WellFormedSubsets, DistinctSubsets, Major, Minor;
  }

  lemma OriginalNameOfMajorOne(d: Scorecard, version: string)
    requires OriginalNameFault(d, version).None? && d.target.originalName.Some?
    ensures Major(version) == Some(1)
    ensures d.source.selection.Some? ==> d.source.selection.value.partitions.None?
    ensures d.integrity.verification.Some? ==> d.integrity.verification.value.coverage == "complete"
    ensures d.outcome == "pass" || d.integrity.result == "pass" ==> d.integrity.verification.Some?
  {
    hide Major, Minor, OwnerListed, IsSha256Prefixed, DistinctStrings, IsDetectionPlace, Named, IsApprovalModeAt180,
         DefinesConsoleApproval, IsScratch;
  }

  lemma MajorTwoNarrows(d: Scorecard)
    requires VersionFault(d).None? && Major(d.formatVersion) == Some(2)
    ensures Narrows(d.source.selection)
  {
    hide Major;
  }

  /** In an accepted document, format 2 is exactly the format of a partition subset, and never of an original name. */
  lemma FormatTwoIsTheSubsetFormat(d: Scorecard)
    requires Accepted(d)
    ensures (Major(d.formatVersion) == Some(2)) <==> Narrows(d.source.selection)
    ensures Narrows(d.source.selection) <==> (d.source.selection.Some? && d.source.selection.value.partitions.Some?)
    ensures Narrows(d.source.selection) ==> d.target.originalName.None?
  {
    hide VersionFault, PostPutFault, OutcomeFault, AuthFault, ParityFault, TimeBasisFault, VerificationFault,
         UnsampledFault, SelectionFault, OriginalNameFault, ConsoleFault, ConsoleModeFault, CreationFault,
         ConfigurationFault, MappingFault, SchemasFault, TotalsOf, Accepted, Major;
    EveryBlockHolds(d);
    SelectionOfMajorOne(d.source.selection, d.integrity.verification, d.formatVersion);
    if Major(d.formatVersion) == Some(2) { MajorTwoNarrows(d); }
    if d.target.originalName.Some? { OriginalNameOfMajorOne(d, d.formatVersion); }
  }

  /** A passing restore under the original names is verified completely, every partition exact. */
  lemma OriginalNameIsComplete(d: Scorecard)
    requires Accepted(d) && d.target.originalName.Some? && d.outcome == "pass"
    ensures ClaimsCompletePass(d) && d.integrity.verification.value.complete.Some?
    ensures IsCompletePass(d.integrity.verification.value.complete.value)
  {
    hide VersionFault, PostPutFault, OutcomeFault, AuthFault, ParityFault, TimeBasisFault, VerificationFault,
         UnsampledFault, SelectionFault, OriginalNameFault, ConsoleFault, ConsoleModeFault, CreationFault,
         ConfigurationFault, MappingFault, SchemasFault, TotalsOf, Accepted, Major, IsCompletePass;
    EveryBlockHolds(d);
    OriginalNameOfMajorOne(d, d.formatVersion);
    CompletePass(d);
  }

  // ---- what a complete pass does not say ------------------------------------------------------

  /** A partition of one record and the given segments. */
  function OneRecord(partition: int, segments: U64, segmentsVerified: U64): Partition {
    Partition("a", partition, "b", true, Replay(1, 1, 1, 0, 0, 0, 0, 0), segments, segmentsVerified, 1, 0)
  }

  /** Two partitions: the first has two segments and one verified, the second none and one. */
  const LOPSIDED: Complete :=
    Complete(true, None, None, 1, Archive(2, 2, [], [], 2, 0), Replay(2, 2, 2, 0, 0, 0, 0, 0),
             [OneRecord(0, 2, 1), OneRecord(1, 0, 1)])

  const LOPSIDED_VERIFICATION: Verification := Verification("complete", "verified", Some(LOPSIDED), None)

  const LOPSIDED_SCORECARD: Scorecard :=
    Scorecard("1.4.0", "r", "pass", 9, Engine(None, None), Source(false, None, None),
              Target(None, Some("m"), None, None, None, None, None, None, None),
              Approval("", "", Instant(0, 0), None), Measured(None, None, Some("u")), Objectives(None, None, None), 2,
              None,
              Integrity("pass", "byte-fingerprint", None, None, 0, 0, Some(LOPSIDED_VERIFICATION)),
              TopicParity([], [], None), Evidence(None, None, false, false, None, None), false)

  lemma LopsidedTotals()
    ensures TotalsOf(LOPSIDED.partitions) == Totals(LOPSIDED.replay, 2, 2, 2, 0)
  {
    var s := LOPSIDED.partitions;
    assert s[..1] == [s[0]] && s[..1][..0] == [];
    assert TotalsOf(s[..1]) == Add(NOTHING, s[0]);
  }

  lemma VersionOneFour()
    ensures Fields("1.4.0") == ["1", "4", "0"]
    ensures Major("1.4.0") == Some(1) && Minor("1.4.0") == Some(4)
  {
    FieldsOfThreeDigits('1', '4', '0');
    assert Number("1") == 1 && Number("4") == 4;
  }

  /** Segments are compared in total only: an accepted complete pass may list a partition whose segments were not all
      verified, beside one that claims more than it has. */
  lemma PartitionSegmentsAreNotCompared()
    ensures Accepted(LOPSIDED_SCORECARD) && ClaimsCompletePass(LOPSIDED_SCORECARD)
    ensures LOPSIDED.partitions[0].segmentsVerified != LOPSIDED.partitions[0].segments
  {
    LopsidedBlock();
    LopsidedHead();
    BlocksSuffice(LOPSIDED_SCORECARD) by { hide TotalsOf, OutcomeFault, VersionFault, PostPutFault, BlockTotalsHold; }
  }

  lemma LopsidedHead()
    ensures VersionFault(LOPSIDED_SCORECARD).None? && PostPutFault(LOPSIDED_SCORECARD).None?
    ensures OutcomeFault(LOPSIDED_SCORECARD).None?
  {
    hide Major;
    VersionOneFour();
    assert !RustBlank("m") by { assert "m"[0] == 'm'; }
  }

  lemma LopsidedBlock()
    ensures BlockTotalsHold(LOPSIDED_SCORECARD)
  {
    hide TotalsOf;
    LopsidedTotals();
    VersionOneFour();
  }
}
