/** The write-stall vocabulary: causes and conditions with their declared
    ordinals, the CF-scope / DB-scope classification of causes by ordinal
    range, their hyphenated names, the internal statistics they map to and the
    keys of the write-stall statistics map. */
module WriteStall {

  /** A write-stall cause. The CF-scope causes form a block that ends just
      before `CFScopeWriteStallCauseEnumMax`, the DB-scope causes a block that
      ends just before `DBScopeWriteStallCauseEnumMax`; `None` comes last. */
  datatype WriteStallCause =
    | MemtableLimit
    | L0FileCountLimit
    | PendingCompactionBytes
    | CFScopeWriteStallCauseEnumMax
    | WriteBufferManagerLimit
    | DBScopeWriteStallCauseEnumMax
    | None
  {
    /** The discriminant the enum declaration gives each variant. */
    function Ordinal(): nat {
      match this
      case MemtableLimit => 0
      case L0FileCountLimit => 1
      case PendingCompactionBytes => 2
      case CFScopeWriteStallCauseEnumMax => 3
      case WriteBufferManagerLimit => 4
      case DBScopeWriteStallCauseEnumMax => 5
      case None => 6
    }

    /** A real cause, as opposed to a scope sentinel or `None`. */
    predicate IsRealCause() {
      !CFScopeWriteStallCauseEnumMax? && !DBScopeWriteStallCauseEnumMax? && !None?
    }
  }

  /** A write-stall condition; `Normal` is kept last. */
  datatype WriteStallCondition = Delayed | Stopped | Normal
  {
    function Ordinal(): nat {
      match this
      case Delayed => 0
      case Stopped => 1
      case Normal => 2
    }
  }

  /** The ordinals are those of the enum declarations: 0 to 6 for the causes
      in declaration order, and 0 to 2 for the conditions, so both ordinal
      maps are one to one. */
  lemma OrdinalsAreDeclarationOrder(c: WriteStallCause, d: WriteStallCause, k: WriteStallCondition, l: WriteStallCondition)
    ensures c.Ordinal() <= None.Ordinal() == 6
    ensures c.Ordinal() == d.Ordinal() ==> c == d
    ensures k.Ordinal() <= Normal.Ordinal() == 2
    ensures k.Ordinal() == l.Ordinal() ==> k == l
  {
  }

  /** The number of CF-scope causes: the distance from the first CF-scope cause
      to the CF-scope sentinel. */
  const kNumCFScopeWriteStallCauses: nat :=
    CFScopeWriteStallCauseEnumMax.Ordinal() - MemtableLimit.Ordinal()

  /** The number of DB-scope causes: the distance from the first DB-scope cause
      to the DB-scope sentinel. */
  const kNumDBScopeWriteStallCauses: nat :=
    DBScopeWriteStallCauseEnumMax.Ordinal() - WriteBufferManagerLimit.Ordinal()

  lemma ScopeCounts()
    ensures kNumCFScopeWriteStallCauses == 3
    ensures kNumDBScopeWriteStallCauses == 1
  {
  }

  /** CF scope: the ordinal lies in [sentinel - count, sentinel - 1]. */
  predicate IsCFScopeWriteStallCause(cause: WriteStallCause)
    ensures IsCFScopeWriteStallCause(cause) <==>
      cause == MemtableLimit || cause == L0FileCountLimit || cause == PendingCompactionBytes
  {
    var intCause := cause.Ordinal();
    var lowerBound := CFScopeWriteStallCauseEnumMax.Ordinal() - kNumCFScopeWriteStallCauses;
    var upperBound := CFScopeWriteStallCauseEnumMax.Ordinal() - 1;
    lowerBound <= intCause <= upperBound
  }

  /** DB scope: the ordinal lies in [sentinel - count, sentinel - 1]. */
  predicate IsDBScopeWriteStallCause(cause: WriteStallCause)
    ensures IsDBScopeWriteStallCause(cause) <==> cause == WriteBufferManagerLimit
  {
    var intCause := cause.Ordinal();
    var lowerBound := DBScopeWriteStallCauseEnumMax.Ordinal() - kNumDBScopeWriteStallCauses;
    var upperBound := DBScopeWriteStallCauseEnumMax.Ordinal() - 1;
    lowerBound <= intCause <= upperBound
  }

  /** Every real cause belongs to exactly one scope; the sentinels and `None`
      belong to none. */
  lemma ScopesPartitionCauses(cause: WriteStallCause)
    ensures !(IsCFScopeWriteStallCause(cause) && IsDBScopeWriteStallCause(cause))
    ensures IsCFScopeWriteStallCause(cause) || IsDBScopeWriteStallCause(cause) <==> cause.IsRealCause()
  {
  }

  const InvalidWriteStallHyphenString: string := "invalid"

  /** The hyphenated name of a cause; every value that is not a real cause
      gets "invalid". */
  function WriteStallCauseToHyphenString(cause: WriteStallCause): (r: string)
    ensures r == InvalidWriteStallHyphenString <==> !cause.IsRealCause()
  {
    match cause
    case MemtableLimit => "memtable-limit"
    case L0FileCountLimit => "l0-file-count-limit"
    case PendingCompactionBytes => "pending-compaction-bytes"
    case WriteBufferManagerLimit => "write-buffer-manager-limit"
    case _ => InvalidWriteStallHyphenString
  }

  /** The hyphenated name of a condition; `Normal` gets "invalid". */
  function WriteStallConditionToHyphenString(condition: WriteStallCondition): (r: string)
    ensures r == InvalidWriteStallHyphenString <==> condition == Normal
  {
    match condition
    case Delayed => "delays"
    case Stopped => "stops"
    case Normal => InvalidWriteStallHyphenString
  }

  /** Distinct real causes have distinct names, and so do distinct conditions. */
  lemma HyphenStringsAreDistinct(c1: WriteStallCause, c2: WriteStallCause, k1: WriteStallCondition, k2: WriteStallCondition)
    ensures c1.IsRealCause() && c2.IsRealCause() && c1 != c2 ==>
      WriteStallCauseToHyphenString(c1) != WriteStallCauseToHyphenString(c2)
    ensures k1 != k2 ==> WriteStallConditionToHyphenString(k1) != WriteStallConditionToHyphenString(k2)
  {
  }

  /** The per-column-family statistics a write stall is counted under. */
  datatype InternalCFStatsType =
    | MemtableLimitDelays
    | MemtableLimitStops
    | L0FileCountLimitDelays
    | L0FileCountLimitStops
    | PendingCompactionBytesLimitDelays
    | PendingCompactionBytesLimitStops
    | InternalCFStatsEnumMax

  /** The database-wide statistics a write stall is counted under. */
  datatype InternalDBStatsType =
    | IntStatsWriteBufferManagerLimitStopsCounts
    | IntStatsNumMax

  /** The CF statistic for a (cause, condition) pair. Callers are asked for a
      CF-scope cause and a condition other than `Normal`; every other pair
      falls through to `InternalCFStatsEnumMax`. */
  function InternalCFStat(cause: WriteStallCause, condition: WriteStallCondition): (r: InternalCFStatsType)
    ensures r != InternalCFStatsEnumMax <==> IsCFScopeWriteStallCause(cause) && condition != Normal
    ensures r.MemtableLimitDelays? || r.L0FileCountLimitDelays? || r.PendingCompactionBytesLimitDelays? <==>
      IsCFScopeWriteStallCause(cause) && condition == Delayed
  {
    match cause
    case MemtableLimit =>
      (match condition
       case Delayed => MemtableLimitDelays
       case Stopped => MemtableLimitStops
       case Normal => InternalCFStatsEnumMax)
    case L0FileCountLimit =>
      (match condition
       case Delayed => L0FileCountLimitDelays
       case Stopped => L0FileCountLimitStops
       case Normal => InternalCFStatsEnumMax)
    case PendingCompactionBytes =>
      (match condition
       case Delayed => PendingCompactionBytesLimitDelays
       case Stopped => PendingCompactionBytesLimitStops
       case Normal => InternalCFStatsEnumMax)
    case _ => InternalCFStatsEnumMax
  }

  /** Within the callers' contract (CF-scope cause, condition not `Normal`)
      every pair has a statistic of its own. */
  lemma InternalCFStatIsInjective(c1: WriteStallCause, k1: WriteStallCondition, c2: WriteStallCause, k2: WriteStallCondition)
    requires IsCFScopeWriteStallCause(c1) && k1 != Normal
    requires IsCFScopeWriteStallCause(c2) && k2 != Normal
    requires InternalCFStat(c1, k1) == InternalCFStat(c2, k2)
    ensures c1 == c2 && k1 == k2
  {
  }

  /** The DB statistic for a (cause, condition) pair: only a stop caused by
      the write buffer manager is counted; a delay by the same cause is not. */
  function InternalDBStat(cause: WriteStallCause, condition: WriteStallCondition): (r: InternalDBStatsType)
    ensures r == IntStatsWriteBufferManagerLimitStopsCounts <==>
      IsDBScopeWriteStallCause(cause) && condition == Stopped
  {
    match cause
    case WriteBufferManagerLimit =>
      (match condition
       case Stopped => IntStatsWriteBufferManagerLimitStopsCounts
       case _ => IntStatsNumMax)
    case _ => IntStatsNumMax
  }

  /** The fixed keys of the write-stall statistics map. */
  const TotalStops: string := "total-stops"
  const TotalDelays: string := "total-delays"
  const CFL0FileCountLimitDelaysWithOngoingCompaction: string :=
    "cf-l0-file-count-limit-delays-with-ongoing-compaction"
  const CFL0FileCountLimitStopsWithOngoingCompaction: string :=
    "cf-l0-file-count-limit-stops-with-ongoing-compaction"

  /** The map key "<cause>-<condition>" counting stalls of a cause under a
      condition. A cause of no scope trips a debug assertion; in a release
      build the result is the empty string. */
  function CauseConditionCount(cause: WriteStallCause, condition: WriteStallCondition): (r: string)
    ensures r == [] <==> !cause.IsRealCause()
    ensures cause.IsRealCause() ==>
      var name := WriteStallCauseToHyphenString(cause);
      var suffix := WriteStallConditionToHyphenString(condition);
      |r| == |name| + 1 + |suffix| && r[..|name|] == name && r[|name|] == '-' && r[|name| + 1..] == suffix
  {
    if IsCFScopeWriteStallCause(cause) || IsDBScopeWriteStallCause(cause) then
      var causeName := WriteStallCauseToHyphenString(cause);
      var conditionName := WriteStallConditionToHyphenString(condition);
      causeName + "-" + conditionName
    else
      ""
  }

  /** Keys for delays and stops of the real causes, as published. */
  lemma CauseConditionCountExamples()
    ensures CauseConditionCount(MemtableLimit, Delayed) == "memtable-limit-delays"
    ensures CauseConditionCount(L0FileCountLimit, Stopped) == "l0-file-count-limit-stops"
    ensures CauseConditionCount(PendingCompactionBytes, Delayed) == "pending-compaction-bytes-delays"
    ensures CauseConditionCount(WriteBufferManagerLimit, Stopped) == "write-buffer-manager-limit-stops"
    ensures CauseConditionCount(MemtableLimit, Normal) == "memtable-limit-invalid"
  {
  }

  /** A map key that counts something: a real cause under Delayed or Stopped. */
  predicate IsCountedPair(cause: WriteStallCause, condition: WriteStallCondition) {
    cause.IsRealCause() && condition != Normal
  }

  /** The first letter of a real cause's name identifies the cause. */
  lemma CauseInitials(c1: WriteStallCause, c2: WriteStallCause)
    requires c1.IsRealCause() && c2.IsRealCause()
    ensures WriteStallCauseToHyphenString(c1)[0] in "mlpw"
    ensures WriteStallCauseToHyphenString(c1)[0] == WriteStallCauseToHyphenString(c2)[0] ==> c1 == c2
  {
  }

  /** No two counted pairs share a key, and no counted key is one of the fixed
      keys, so the statistics map never conflates two counters. */
  lemma StatsMapKeysAreDistinct(c1: WriteStallCause, k1: WriteStallCondition, c2: WriteStallCause, k2: WriteStallCondition)
    requires IsCountedPair(c1, k1) && IsCountedPair(c2, k2)
    ensures CauseConditionCount(c1, k1) == CauseConditionCount(c2, k2) ==> c1 == c2 && k1 == k2
    ensures CauseConditionCount(c1, k1) !in
      {TotalStops, TotalDelays, CFL0FileCountLimitDelaysWithOngoingCompaction, CFL0FileCountLimitStopsWithOngoingCompaction}
  {
    CountedKeysDiffer(c1, k1, c2, k2);
    NotAFixedKey(c1, k1);
  }

  lemma CountedKeysDiffer(c1: WriteStallCause, k1: WriteStallCondition, c2: WriteStallCause, k2: WriteStallCondition)
    requires IsCountedPair(c1, k1) && IsCountedPair(c2, k2)
    ensures CauseConditionCount(c1, k1) == CauseConditionCount(c2, k2) ==> c1 == c2 && k1 == k2
  {
    var key1 := CauseConditionCount(c1, k1);
    var key2 := CauseConditionCount(c2, k2);
    if key1 == key2 {
      // the same initial means the same cause; then the letter after the
      // cause name and its '-' tells delays from stops
      var name1 := WriteStallCauseToHyphenString(c1);
      var name2 := WriteStallCauseToHyphenString(c2);
      CauseInitials(c1, c2);
      assert key1[0] == name1[0] && key2[0] == name2[0];
      assert c1 == c2;
      var n := |name1|;
      assert key1[n + 1] == WriteStallConditionToHyphenString(k1)[0];
      assert key2[n + 1] == WriteStallConditionToHyphenString(k2)[0];
    }
  }

  /** A counted key is 20 to 33 characters long; the fixed keys are shorter
      or longer. */
  lemma NotAFixedKey(c: WriteStallCause, k: WriteStallCondition)
    requires IsCountedPair(c, k)
    ensures CauseConditionCount(c, k) !in
      {TotalStops, TotalDelays, CFL0FileCountLimitDelaysWithOngoingCompaction, CFL0FileCountLimitStopsWithOngoingCompaction}
  {
    var key := CauseConditionCount(c, k);
    assert 20 <= |key| <= 33;
    assert |TotalStops| == 11 && |TotalDelays| == 12;
    assert |CFL0FileCountLimitDelaysWithOngoingCompaction| == 53;
    assert |CFL0FileCountLimitStopsWithOngoingCompaction| == 52;
  }
}
