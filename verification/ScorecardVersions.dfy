/** What raising the minor of a scorecard's format version changes: it opens gates, and nothing else. */
module ScorecardVersions {
  import opened Basics
  import Whitespace
  import opened Versions
  import opened Scorecard
  import opened ScorecardArms
  import opened ScorecardTheorems

  /** Every versioned field the document carries is defined at a version. */
  predicate GatesOpen(d: Scorecard, version: string) {
    var t, v := d.target, d.integrity.verification;
    && AuthGate(t.auth, version)
    && (d.topicParity.notReconstructed.Some? ==> DefinesFormat1Minor(version, 2))
    && (d.source.timeBasis.Some? ==> DefinesFormat1Minor(version, 3))
    && (v.Some? ==> DefinesFormat1Minor(version, 4))
    && (d.unsampledTopics.Some? ==> DefinesFormat1Minor(version, 6))
    && (d.source.selection.Some? ==> DefinesFormat1Minor(version, 7))
    && OriginalNameGate(t.originalName, version)
    && (d.approval.console.Some? ==> DefinesConsoleApproval(version))
    && (t.creation.Some? ==> DefinesTargetCreation(version))
    && (t.topicConfiguration.Some? ==> DefinesTopicConfiguration(version))
    && (v.Some? && v.value.positionsMapping.Some? ==> DefinesPositionsMapping(version))
    && (t.schemas.Some? ==> DefinesSchemas(version))
  }

  /** The three mechanisms 1.5.0 added. */
  predicate AuthGate(auth: Option<Auth>, version: string) {
    auth.Some? && Named(auth.value.mode) && IsAddedMode(auth.value.mode.value) ==> DefinesFormat1Minor(version, 5)
  }

  /** The block, and the approval mode a later minor added to it. */
  predicate OriginalNameGate(o: Option<OriginalName>, version: string) {
    o.Some? ==>
      DefinesOriginalName(version) && (o.value.approvalMode == "consoleApproval" ==> DefinesConsoleApproval(version))
  }

  lemma GatesStayOpen(version: string, later: string)
    requires NotOlder(version, later)
    ensures forall since :: DefinesFormat1Minor(version, since) ==> DefinesFormat1Minor(later, since)
    ensures forall a, b :: DefinesFrom(version, a, b) ==> DefinesFrom(later, a, b)
    ensures DefinesOriginalName(version) ==> DefinesOriginalName(later)
  {
    hide Major, Minor;
  }

  lemma AuthTurnsOnItsGate(auth: Option<Auth>, version: string, later: string)
    requires NotOlder(version, later)
    ensures AuthFault(auth, version).None? <==> AuthFault(auth, later).None? && AuthGate(auth, version)
  {
    hide DefinesFormat1Minor, Named;
    GatesStayOpen(version, later);
  }

  lemma ParityTurnsOnItsGate(d: Scorecard, version: string, later: string)
    requires NotOlder(version, later)
    ensures ParityFault(d, version).None? <==>
            ParityFault(d, later).None? && (d.topicParity.notReconstructed.Some? ==> DefinesFormat1Minor(version, 2))
  {
    hide DefinesFormat1Minor, ParityKey, IsRestoreDecided;
    GatesStayOpen(version, later);
  }

  lemma TimeBasisTurnsOnItsGate(t: Option<TimeBasis>, version: string, later: string)
    requires NotOlder(version, later)
    ensures TimeBasisFault(t, version).None? <==>
            TimeBasisFault(t, later).None? && (t.Some? ==> DefinesFormat1Minor(version, 3))
  {
    hide DefinesFormat1Minor;
    GatesStayOpen(version, later);
  }

  lemma VerificationTurnsOnItsGate(v: Option<Verification>, result: string, totals: Totals, version: string,
                                   later: string)
    requires NotOlder(version, later)
    ensures VerificationFault(v, result, version, totals).None? <==>
            VerificationFault(v, result, later, totals).None? && (v.Some? ==> DefinesFormat1Minor(version, 4))
  {
    hide DefinesFormat1Minor, Clean, TotalsFit, Named;
    GatesStayOpen(version, later);
  }

  lemma UnsampledTurnsOnItsGate(d: Scorecard, version: string, later: string)
    requires NotOlder(version, later)
    ensures UnsampledFault(d, version).None? <==>
            UnsampledFault(d, later).None? && (d.unsampledTopics.Some? ==> DefinesFormat1Minor(version, 6))
  {
    hide DefinesFormat1Minor, RustBlank, StrictlySorted;
    GatesStayOpen(version, later);
  }

  lemma SelectionTurnsOnItsGate(s: Option<Selection>, v: Option<Verification>, version: string, later: string)
    requires NotOlder(version, later)
    ensures SelectionFault(s, v, version).None? <==>
            SelectionFault(s, v, later).None? && (s.Some? ==> DefinesFormat1Minor(version, 7))
  {
    hide DefinesFormat1Minor, ExpectsUnselected, WellFormedSubsets, DistinctSubsets, Major, Minor;
    GatesStayOpen(version, later);
  }

  lemma OriginalNameTurnsOnItsGate(d: Scorecard, version: string, later: string)
    requires NotOlder(version, later)
    ensures OriginalNameFault(d, version).None? <==>
            OriginalNameFault(d, later).None? && OriginalNameGate(d.target.originalName, version)
  {
    hide DefinesOriginalName, DefinesFrom, OwnerListed, IsSha256Prefixed, DistinctStrings, IsDetectionPlace, Named,
         IsScratch, IsApprovalModeAt180;
    GatesStayOpen(version, later);
  }

  lemma ConsoleTurnsOnItsGate(d: Scorecard, version: string, later: string)
    requires NotOlder(version, later)
    ensures ConsoleFault(d, version).None? <==>
            ConsoleFault(d, later).None? && (d.approval.console.Some? ==> DefinesConsoleApproval(version))
  {
    hide DefinesFrom, AreTwoPeople, RustBlank;
    GatesStayOpen(version, later);
  }

  lemma CreationTurnsOnItsGate(d: Scorecard, version: string, later: string)
    requires NotOlder(version, later)
    ensures CreationFault(d, version).None? <==>
            CreationFault(d, later).None? && (d.target.creation.Some? ==> DefinesTargetCreation(version))
  {
    hide DefinesFrom, RustBlank, IdentityFits, IsScratch;
    GatesStayOpen(version, later);
  }

  lemma ConfigurationTurnsOnItsGate(c: Option<TopicConfiguration>, version: string, later: string)
    requires NotOlder(version, later)
    ensures ConfigurationFault(c, version).None? <==>
            ConfigurationFault(c, later).None? && (c.Some? ==> DefinesTopicConfiguration(version))
  {
    hide DefinesFrom, TopicConfigured, SecretsFit, IsSha256Prefixed;
    GatesStayOpen(version, later);
  }

  lemma MappingTurnsOnItsGate(d: Scorecard, version: string, later: string)
    requires NotOlder(version, later)
    ensures MappingFault(d, version).None? <==>
            MappingFault(d, later).None?
            && (d.integrity.verification.Some? && d.integrity.verification.value.positionsMapping.Some? ==>
                  DefinesPositionsMapping(version))
  {
    hide DefinesFrom, IsSha256Prefixed;
    GatesStayOpen(version, later);
  }

  lemma SchemasTurnOnTheirGate(s: Option<Schemas>, version: string, later: string)
    requires NotOlder(version, later)
    ensures SchemasFault(s, version).None? <==> SchemasFault(s, later).None? && (s.Some? ==> DefinesSchemas(version))
  {
    hide DefinesFrom, IsSha256Prefixed, Earlier, Whitespace.Blank, Ascending;
    GatesStayOpen(version, later);
  }

  /** The blocks no minor is read for. */
  lemma UnversionedBlocks(d: Scorecard, e: Scorecard)
    requires e == d.(formatVersion := e.formatVersion) && Major(d.formatVersion) == Major(e.formatVersion)
    ensures VersionFault(d) == VersionFault(e) && PostPutFault(d) == PostPutFault(e)
    ensures OutcomeFault(d) == OutcomeFault(e) && ConsoleModeFault(d) == ConsoleModeFault(e)
  {
    hide Major, Named, IsScratch, NotNegative;
  }

  /** The blocks that read a version through their argument alone. */
  lemma SameBlocks(d: Scorecard, e: Scorecard, v: string)
    requires e == d.(formatVersion := e.formatVersion)
    ensures ParityFault(d, v) == ParityFault(e, v) && UnsampledFault(d, v) == UnsampledFault(e, v)
    ensures OriginalNameFault(d, v) == OriginalNameFault(e, v) && ConsoleFault(d, v) == ConsoleFault(e, v)
    ensures CreationFault(d, v) == CreationFault(e, v) && MappingFault(d, v) == MappingFault(e, v)
  {
    SameParity(d, e, v);
    SameOriginalName(d, e, v);
    SameRest(d, e, v);
  }

  lemma SameParity(d: Scorecard, e: Scorecard, v: string)
    requires e == d.(formatVersion := e.formatVersion)
    ensures ParityFault(d, v) == ParityFault(e, v) && UnsampledFault(d, v) == UnsampledFault(e, v)
  {
    hide DefinesFormat1Minor, ParityKey, IsRestoreDecided, RustBlank, StrictlySorted;
  }

  lemma SameOriginalName(d: Scorecard, e: Scorecard, v: string)
    requires e == d.(formatVersion := e.formatVersion)
    ensures OriginalNameFault(d, v) == OriginalNameFault(e, v) && ConsoleFault(d, v) == ConsoleFault(e, v)
  {
    hide DefinesOriginalName, DefinesFrom, OwnerListed, IsSha256Prefixed, DistinctStrings, IsDetectionPlace, Named,
         IsScratch, IsApprovalModeAt180, AreTwoPeople, RustBlank;
  }

  lemma SameRest(d: Scorecard, e: Scorecard, v: string)
    requires e == d.(formatVersion := e.formatVersion)
    ensures CreationFault(d, v) == CreationFault(e, v) && MappingFault(d, v) == MappingFault(e, v)
  {
    hide DefinesFrom, RustBlank, IdentityFits, IsScratch, IsSha256Prefixed;
  }

  /** Every block of a document holds when its version is at `v`. */
  predicate BlocksHold(d: Scorecard, v: string) {
    && AuthFault(d.target.auth, v).None? && ParityFault(d, v).None? && TimeBasisFault(d.source.timeBasis, v).None?
    && VerificationFault(d.integrity.verification, d.integrity.result, v,
                         TotalsOf(PartitionsOf(d.integrity.verification))).None?
    && UnsampledFault(d, v).None? && SelectionFault(d.source.selection, d.integrity.verification, v).None?
    && OriginalNameFault(d, v).None? && ConsoleFault(d, v).None? && CreationFault(d, v).None?
    && ConfigurationFault(d.target.topicConfiguration, v).None? && MappingFault(d, v).None?
    && SchemasFault(d.target.schemas, v).None?
  }

  lemma BlocksTurnOnTheirGates(d: Scorecard, version: string, later: string)
    requires NotOlder(version, later)
    ensures BlocksHold(d, version) <==> BlocksHold(d, later) && GatesOpen(d, version)
  {
    hide AuthFault, ParityFault, TimeBasisFault, VerificationFault, UnsampledFault, SelectionFault, OriginalNameFault,
         ConsoleFault, CreationFault, ConfigurationFault, MappingFault, SchemasFault, TotalsOf, AuthGate,
         OriginalNameGate, DefinesFrom, DefinesFormat1Minor, NotOlder;
    AuthTurnsOnItsGate(d.target.auth, version, later);
    ParityTurnsOnItsGate(d, version, later);
    TimeBasisTurnsOnItsGate(d.source.timeBasis, version, later);
    VerificationTurnsOnItsGate(d.integrity.verification, d.integrity.result,
                               TotalsOf(PartitionsOf(d.integrity.verification)),
                               version, later);
    UnsampledTurnsOnItsGate(d, version, later);
    SelectionTurnsOnItsGate(d.source.selection, d.integrity.verification, version, later);
    OriginalNameTurnsOnItsGate(d, version, later);
    ConsoleTurnsOnItsGate(d, version, later);
    CreationTurnsOnItsGate(d, version, later);
    ConfigurationTurnsOnItsGate(d.target.topicConfiguration, version, later);
    MappingTurnsOnItsGate(d, version, later);
    SchemasTurnOnTheirGate(d.target.schemas, version, later);
  }

  lemma AcceptedIsBlocksHold(d: Scorecard)
    ensures Accepted(d) <==>
            VersionFault(d).None? && PostPutFault(d).None? && OutcomeFault(d).None? && ConsoleModeFault(d).None?
            && !d.redacted && BlocksHold(d, d.formatVersion)
  {
    hide VersionFault, PostPutFault, OutcomeFault, AuthFault, ParityFault, TimeBasisFault, VerificationFault,
         UnsampledFault, SelectionFault, OriginalNameFault, ConsoleFault, ConsoleModeFault, CreationFault,
         ConfigurationFault, MappingFault, SchemasFault, TotalsOf, Accepted;
    if Accepted(d) { EveryBlockHolds(d); }
    if VersionFault(d).None? && PostPutFault(d).None? && OutcomeFault(d).None? && ConsoleModeFault(d).None?
       && !d.redacted
       && BlocksHold(d, d.formatVersion)
    {
      BlocksSuffice(d);
    }
  }

  /** The same document under another version. */
  lemma BlocksHoldUnder(d: Scorecard, e: Scorecard, v: string)
    requires e == d.(formatVersion := e.formatVersion)
    ensures BlocksHold(d, v) == BlocksHold(e, v) && GatesOpen(d, v) == GatesOpen(e, v)
  {
    hide AuthFault, ParityFault, TimeBasisFault, VerificationFault, UnsampledFault, SelectionFault, OriginalNameFault,
         ConsoleFault, CreationFault, ConfigurationFault, MappingFault, SchemasFault, TotalsOf, AuthGate,
         OriginalNameGate, DefinesFrom, DefinesFormat1Minor;
    SameBlocks(d, e, v);
  }

  /** Two minors of one major judge a document alike, except that the older refuses a field it does not define. */
  lemma AnOlderMinorOnlyClosesGates(d: Scorecard, later: string)
    requires NotOlder(d.formatVersion, later)
    ensures Accepted(d) <==> Accepted(d.(formatVersion := later)) && GatesOpen(d, d.formatVersion)
  {
    hide VersionFault, PostPutFault, OutcomeFault, ConsoleModeFault, BlocksHold, GatesOpen, Accepted, Major, Minor;
    var e := d.(formatVersion := later);
    AcceptedIsBlocksHold(d);
    AcceptedIsBlocksHold(e);
    UnversionedBlocks(d, e);
    BlocksHoldUnder(d, e, later);
    BlocksTurnOnTheirGates(d, d.formatVersion, later);
  }

  /** Raising the minor, and changing nothing else, never loses an accept. */
  lemma MinorUpgrade(d: Scorecard, later: string)
    requires Accepted(d) && NotOlder(d.formatVersion, later)
    ensures Accepted(d.(formatVersion := later))
  {
    hide Accepted, GatesOpen, NotOlder;
    AnOlderMinorOnlyClosesGates(d, later);
  }
}
