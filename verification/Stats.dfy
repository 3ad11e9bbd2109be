// The size and count statistics kept while backups are taken, and the equations between them.
module Stats {
  // One line of the breakdown by kind of chunk.
  datatype Kind = Kind(numbers: nat, oriSize: nat, saveSize: nat, reductSize: nat)

  datatype Counters = Counters(
    logicalNum: nat, logicalSize: nat, uniqueNum: nat, uniqueSize: nat,
    baseNum: nat, baseSize: nat, lz4LogicalSize: nat, lz4UniqueSize: nat,
    deltaNum: nat, deltaSize: nat, deltaOriSize: nat,
    dedupReduct: nat, localReduct: nat, deltaReduct: nat, featureReduct: nat, localityReduct: nat,
    file: Kind, header: Kind, cdc: Kind)

  function Initial(): Counters {
    var none := Kind(0, 0, 0, 0);
    Counters(0, 0, 0, 0, 0, 0, 0, 0, 0, 0, 0, 0, 0, 0, 0, 0, none, none, none)
  }

  // A base chunk. The source subtracts unsigned: that a chunk is never saved in more than its size matters here and
  // below.
  function StatsBase(s: Counters, size: nat, saved: nat): Counters
    requires saved <= size
  {
    s.(baseNum := s.baseNum + 1, baseSize := s.baseSize + saved,
       lz4LogicalSize := s.lz4LogicalSize + size, lz4UniqueSize := s.lz4UniqueSize + saved,
       localReduct := s.localReduct + (size - saved))
  }

  function StatsDelta(s: Counters, size: nat, saved: nat): Counters
    requires saved <= size
  {
    s.(deltaNum := s.deltaNum + 1, deltaSize := s.deltaSize + saved, deltaOriSize := s.deltaOriSize + size,
       deltaReduct := s.deltaReduct + (size - saved))
  }

  function StatsDeltaFeature(s: Counters, size: nat, saved: nat): Counters
    requires saved <= size
  {
    StatsDelta(s, size, saved).(featureReduct := s.featureReduct + (size - saved))
  }

  function StatsDeltaLocality(s: Counters, size: nat, saved: nat): Counters
    requires saved <= size
  {
    StatsDelta(s, size, saved).(localityReduct := s.localityReduct + (size - saved))
  }

  function Counted(k: Kind, size: nat, saved: nat): Kind
    requires saved <= size
  {
    Kind(k.numbers + 1, k.oriSize + size, k.saveSize + saved, k.reductSize + (size - saved))
  }

  function StatsFileHeaderCDC(s: Counters, size: nat, saved: nat, headerFlag: bool, cdcFlag: bool): Counters
    requires saved <= size
  {
    if headerFlag then s.(header := Counted(s.header, size, saved))
    else if cdcFlag then s.(cdc := Counted(s.cdc, size, saved))
    else s.(file := Counted(s.file, size, saved))
  }

  // The end of the unique branch, and of the loop body.
  function StatsUnique(s: Counters, size: nat, saved: nat, headerFlag: bool, cdcFlag: bool): Counters
    requires saved <= size
  {
    StatsFileHeaderCDC(s.(uniqueSize := s.uniqueSize + saved, uniqueNum := s.uniqueNum + 1), size, saved, headerFlag,
                       cdcFlag)
  }

  function StatsLogical(s: Counters, size: nat): Counters {
    s.(logicalNum := s.logicalNum + 1, logicalSize := s.logicalSize + size)
  }

  function StatsDuplicate(s: Counters, size: nat): Counters {
    s.(dedupReduct := s.dedupReduct + size)
  }

  // What every chunk keeps: nothing is counted twice or lost.
  ghost predicate Balanced(s: Counters) {
    && s.logicalSize == s.uniqueSize + s.dedupReduct + s.localReduct + s.deltaReduct
    && s.deltaReduct == s.featureReduct + s.localityReduct
    && s.uniqueNum == s.baseNum + s.deltaNum <= s.logicalNum
    && s.uniqueSize == s.baseSize + s.deltaSize
    && s.baseSize == s.lz4UniqueSize && s.lz4LogicalSize == s.baseSize + s.localReduct
    && s.deltaOriSize == s.deltaSize + s.deltaReduct
    && s.uniqueNum == s.file.numbers + s.header.numbers + s.cdc.numbers
    && s.uniqueSize == s.file.saveSize + s.header.saveSize + s.cdc.saveSize
    && s.localReduct + s.deltaReduct == s.file.reductSize + s.header.reductSize + s.cdc.reductSize
    && s.logicalSize == s.file.oriSize + s.header.oriSize + s.cdc.oriSize + s.dedupReduct
  }

  lemma NothingIsBalanced(s: Counters)
    requires s == Initial()
    ensures Balanced(s)
  {
  }

  lemma ChunkKeepsBalance(s: Counters, size: nat, saved: nat, headerFlag: bool, cdcFlag: bool)
    requires Balanced(s) && saved <= size
    ensures Balanced(StatsLogical(StatsUnique(StatsBase(s, size, saved), size, saved, headerFlag, cdcFlag), size))
    ensures Balanced(StatsLogical(StatsUnique(StatsDeltaFeature(s, size, saved), size, saved, headerFlag, cdcFlag),
                                  size))
    ensures Balanced(StatsLogical(StatsUnique(StatsDeltaLocality(s, size, saved), size, saved, headerFlag, cdcFlag),
                                  size))
    ensures Balanced(StatsLogical(StatsDuplicate(s, size), size))
  {
    hide Balanced;
    BaseKeepsBalance(s, size, saved, headerFlag, cdcFlag);
    FeatureKeepsBalance(s, size, saved, headerFlag, cdcFlag);
    LocalityKeepsBalance(s, size, saved, headerFlag, cdcFlag);
    DuplicateKeepsBalance(s, size);
  }

  lemma BaseKeepsBalance(s: Counters, size: nat, saved: nat, headerFlag: bool, cdcFlag: bool)
    requires Balanced(s) && saved <= size
    ensures Balanced(StatsLogical(StatsUnique(StatsBase(s, size, saved), size, saved, headerFlag, cdcFlag), size))
  {
  }

  lemma FeatureKeepsBalance(s: Counters, size: nat, saved: nat, headerFlag: bool, cdcFlag: bool)
    requires Balanced(s) && saved <= size
    ensures Balanced(StatsLogical(StatsUnique(StatsDeltaFeature(s, size, saved), size, saved, headerFlag, cdcFlag),
                                  size))
  {
  }

  lemma LocalityKeepsBalance(s: Counters, size: nat, saved: nat, headerFlag: bool, cdcFlag: bool)
    requires Balanced(s) && saved <= size
    ensures Balanced(StatsLogical(StatsUnique(StatsDeltaLocality(s, size, saved), size, saved, headerFlag, cdcFlag),
                                  size))
  {
  }

  lemma DuplicateKeepsBalance(s: Counters, size: nat)
    requires Balanced(s)
    ensures Balanced(StatsLogical(StatsDuplicate(s, size), size))
  {
  }
}
