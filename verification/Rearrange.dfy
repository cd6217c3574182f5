/**
  The in-place part of `reorderTwiddle`: three stride tables and three
  offset tables are allocated as zero-filled arrays and filled stage by
  stage through the write cursors `tabKIndex` and the read cursors
  `pVectCoefK`, exactly as the generator's nested loops do.
 */
module Rearrange {
  import opened StageSchedule

  /**
    A stride table whose first `index` slots hold `expected` and have each
    been written once, while the other slots have not been written yet.
   */
  ghost predicate FilledUpTo<T>(tab: seq<T>, writes: seq<nat>, index: nat, expected: seq<T>)
  {
    && |writes| == |tab|
    && index <= |tab|
    && tab[..index] == expected
    && writes == WriteCounts(|tab|, index)
  }

  /** Per-slot write counts of a table of `len` slots whose first `index` slots have each been written once. */
  function WriteCounts(len: nat, index: nat): seq<nat>
  {
    seq(len, j => if j < index then 1 else 0)
  }

  /** An offset table of `len` entries whose entries for the stages before `stage` are recorded and whose other entries are still zero. */
  function OffsetsUpTo(n: nat, len: nat, stage: nat): seq<nat>
  {
    seq(len, s => if 0 <= s < stage then StageOffset(n, s) else 0)
  }

  /**
    Stride table in the middle of a stage: the first `index` slots have
    been written once each, and appending the `remaining` pairs still to be
    read from `cursor` on gives `target`, which fits in the table.
   */
  ghost predicate Pending<T>(tab: seq<T>, writes: seq<nat>, index: nat, coefs: seq<T>,
                             cursor: nat, step: nat, remaining: nat, target: seq<T>)
  {
    && |writes| == |tab|
    && index <= |tab|
    && writes == WriteCounts(|tab|, index)
    && PicksInBounds(|coefs|, cursor, step, remaining)
    && tab[..index] + StagePicks(coefs, cursor, step, remaining) == target
    && |target| <= |tab|
  }

  /** Every slot of `tab` from `from` on still holds its value in `orig`. */
  ghost predicate Untouched<T>(tab: seq<T>, orig: seq<T>, from: nat)
  {
    |tab| == |orig| && forall j :: from <= j < |tab| ==> tab[j] == orig[j]
  }

  /** At the start of a stage, the whole stage is pending; the read cursor moves by `step = 2 * K * 4^stage`. */
  lemma BeginStage<T>(tab: seq<T>, writes: seq<nat>, coefs: seq<T>, m: nat, k: nat, stage: nat, step: nat)
    requires |coefs| == 2 * Pow4(m) && 1 <= k <= 3 && stage < m && step == 2 * k * Pow4(stage)
    requires FilledUpTo(tab, writes, StageOffset(Pow4(m), stage), StrideTable(coefs, m, k, stage))
    requires StageOffset(Pow4(m), stage + 1) <= |tab|
    ensures Pending(tab, writes, StageOffset(Pow4(m), stage), coefs,
                    0, step, StageCount(Pow4(m), stage), StrideTable(coefs, m, k, stage + 1))
  {
    StageReadsInBounds(m, k, stage);
  }

  /** Writing the pair at the read cursor into the two slots at the write cursor advances both cursors. */
  lemma WritePair<T>(tab: seq<T>, writes: seq<nat>, index: nat, coefs: seq<T>,
                     cursor: nat, step: nat, remaining: nat, target: seq<T>)
    requires Pending(tab, writes, index, coefs, cursor, step, remaining, target) && 0 < remaining
    ensures cursor + 1 < |coefs| && index + 1 < |tab|
    ensures Pending(tab[index := coefs[cursor]][index + 1 := coefs[cursor + 1]],
                    writes[index := writes[index] + 1][index + 1 := writes[index + 1] + 1],
                    index + 2, coefs, cursor + step, step, remaining - 1, target)
  {
    var a, b := coefs[cursor], coefs[cursor + 1];
    var picks := StagePicks(coefs, cursor + step, step, remaining - 1);
    assert StagePicks(coefs, cursor, step, remaining) == [a, b] + picks;
    PrefixPair(tab, index, a, b);
    assert tab[..index] + [a, b] + picks == tab[..index] + ([a, b] + picks);
    CountsStep(|tab|, index);
  }

  /** Setting the two slots at `index` extends the prefix before `index` by those two values. */
  lemma PrefixPair<T>(tab: seq<T>, index: nat, a: T, b: T)
    requires index + 1 < |tab|
    ensures tab[index := a][index + 1 := b][..index + 2] == tab[..index] + [a, b]
  {
  }

  /** Counting one write in each of the two slots at the cursor. */
  lemma CountsStep(len: nat, index: nat)
    requires index + 1 < len
    ensures var w := WriteCounts(len, index);
            w[index := w[index] + 1][index + 1 := w[index + 1] + 1] == WriteCounts(len, index + 2)
  {
  }

  /** With the cursor at the end, every slot has been written once. */
  lemma AllCounted(len: nat)
    ensures WriteCounts(len, len) == seq(len, _ => 1)
  {
  }

  /** Before the first stage no offset is recorded: the table is all zeros, as allocated. */
  lemma NoOffsets(n: nat, len: nat)
    ensures OffsetsUpTo(n, len, 0) == seq(len, _ => 0)
  {
  }

  /** When nothing remains, the table is filled up to the target. */
  lemma EndStage<T>(tab: seq<T>, writes: seq<nat>, index: nat, coefs: seq<T>, cursor: nat, step: nat, target: seq<T>)
    requires Pending(tab, writes, index, coefs, cursor, step, 0, target)
    ensures FilledUpTo(tab, writes, index, target) && index == |target|
  {
  }

  /** `tabKOffset[stage] = tabKIndex`: records where stage `stage` starts in its stride table. */
  method RecordOffset(tabOffset: array<nat>, n: nat, stage: nat, tabIndex: nat)
    requires stage < tabOffset.Length && tabIndex == StageOffset(n, stage)
    requires tabOffset[..] == OffsetsUpTo(n, tabOffset.Length, stage)
    modifies tabOffset
    ensures tabOffset[..] == OffsetsUpTo(n, tabOffset.Length, stage + 1)
  {
    tabOffset[stage] := tabIndex;
  }

  /**
    The four statements of the inner loop body that serve one stride table:
    copy the pair at the read cursor into the two slots at the write cursor,
    then advance the write cursor by two and the read cursor by `step`.
   */
  method CopyPair<T>(tab: array<T>, tabIndex: nat, coefs: seq<T>, pVectCoef: nat, step: nat,
                     ghost remaining: nat, ghost target: seq<T>, ghost writes: seq<nat>, ghost orig: seq<T>)
    returns (tabIndex': nat, pVectCoef': nat, ghost writes': seq<nat>)
    requires Pending(tab[..], writes, tabIndex, coefs, pVectCoef, step, remaining, target) && 0 < remaining
    requires Untouched(tab[..], orig, tabIndex)
    modifies tab
    ensures tabIndex' == tabIndex + 2 && pVectCoef' == pVectCoef + step
    ensures tab[..] == old(tab[..])[tabIndex := coefs[pVectCoef]][tabIndex + 1 := coefs[pVectCoef + 1]]
    ensures Pending(tab[..], writes', tabIndex', coefs, pVectCoef', step, remaining - 1, target)
    ensures Untouched(tab[..], orig, tabIndex')
  {
    WritePair(tab[..], writes, tabIndex, coefs, pVectCoef, step, remaining, target);
    tab[tabIndex] := coefs[pVectCoef];
    tab[tabIndex + 1] := coefs[pVectCoef + 1];
    writes' := writes[tabIndex := writes[tabIndex] + 1][tabIndex + 1 := writes[tabIndex + 1] + 1];
    tabIndex' := tabIndex + 2;
    pVectCoef' := pVectCoef + step;
  }

  /**
    The inner `for i` loop of one stage: appends the stage's `nbOfElt`
    pending pairs to each stride table, reading table K's pairs with stride
    `incr * K * 2` from the start of the twiddle vector, until each table
    holds its target.
   */
  method ExtractStage<T>(coefs: seq<T>, nbOfElt: nat, incr: nat,
                         tab1: array<T>, tab2: array<T>, tab3: array<T>, index: nat, maxNb: nat,
                         ghost writes1: seq<nat>, ghost writes2: seq<nat>, ghost writes3: seq<nat>,
                         ghost target1: seq<T>, ghost target2: seq<T>, ghost target3: seq<T>)
    returns (tab1Index: nat, tab2Index: nat, tab3Index: nat, maxNb': nat,
             ghost writes1': seq<nat>, ghost writes2': seq<nat>, ghost writes3': seq<nat>)
    requires tab1 != tab2 && tab2 != tab3 && tab1 != tab3
    requires Pending(tab1[..], writes1, index, coefs, 0, incr * 1 * 2, nbOfElt, target1)
    requires Pending(tab2[..], writes2, index, coefs, 0, incr * 2 * 2, nbOfElt, target2)
    requires Pending(tab3[..], writes3, index, coefs, 0, incr * 3 * 2, nbOfElt, target3)
    modifies tab1, tab2, tab3
    ensures tab1Index == tab2Index == tab3Index
    ensures maxNb' == maxNb + nbOfElt
    ensures FilledUpTo(tab1[..], writes1', tab1Index, target1) && tab1Index == |target1|
    ensures FilledUpTo(tab2[..], writes2', tab2Index, target2) && tab2Index == |target2|
    ensures FilledUpTo(tab3[..], writes3', tab3Index, target3) && tab3Index == |target3|
    ensures Untouched(tab1[..], old(tab1[..]), tab1Index)
    ensures Untouched(tab2[..], old(tab2[..]), tab2Index)
    ensures Untouched(tab3[..], old(tab3[..]), tab3Index)
  {
    tab1Index, tab2Index, tab3Index := index, index, index;
    writes1', writes2', writes3' := writes1, writes2, writes3;
    maxNb' := maxNb;
    var pVectCoef1: nat, pVectCoef2: nat, pVectCoef3: nat := 0, 0, 0;
    ghost var orig1, orig2, orig3 := tab1[..], tab2[..], tab3[..];

    var i: nat := 0;
    while i < nbOfElt
      invariant i <= nbOfElt
      invariant tab1Index == tab2Index == tab3Index
      invariant maxNb' == maxNb + i
      invariant Pending(tab1[..], writes1', tab1Index, coefs, pVectCoef1, incr * 1 * 2, nbOfElt - i, target1)
      invariant Pending(tab2[..], writes2', tab2Index, coefs, pVectCoef2, incr * 2 * 2, nbOfElt - i, target2)
      invariant Pending(tab3[..], writes3', tab3Index, coefs, pVectCoef3, incr * 3 * 2, nbOfElt - i, target3)
      invariant Untouched(tab1[..], orig1, tab1Index)
      invariant Untouched(tab2[..], orig2, tab2Index)
      invariant Untouched(tab3[..], orig3, tab3Index)
    {
      tab1Index, pVectCoef1, writes1' := CopyPair(tab1, tab1Index, coefs, pVectCoef1, incr * 1 * 2, nbOfElt - i, target1, writes1', orig1);
      tab2Index, pVectCoef2, writes2' := CopyPair(tab2, tab2Index, coefs, pVectCoef2, incr * 2 * 2, nbOfElt - i, target2, writes2', orig2);
      tab3Index, pVectCoef3, writes3' := CopyPair(tab3, tab3Index, coefs, pVectCoef3, incr * 3 * 2, nbOfElt - i, target3, writes3', orig3);
      maxNb' := maxNb' + 1;
      i := i + 1;
    }
    EndStage(tab1[..], writes1', tab1Index, coefs, pVectCoef1, incr * 1 * 2, target1);
    EndStage(tab2[..], writes2', tab2Index, coefs, pVectCoef2, incr * 2 * 2, target2);
    EndStage(tab3[..], writes3', tab3Index, coefs, pVectCoef3, incr * 3 * 2, target3);
  }

  /**
    One iteration of the outer `for stage` loop after `nbOfElt` has been
    shifted: the three offset tables record where the stage starts, then
    the stage's pairs are extracted.
   */
  method RunStage<T>(coefs: seq<T>, n: nat, numStages: nat, stage: nat, nbOfElt: nat, incr: nat,
                     tab1: array<T>, tab2: array<T>, tab3: array<T>,
                     tab1Offset: array<nat>, tab2Offset: array<nat>, tab3Offset: array<nat>,
                     index: nat, maxNb: nat,
                     ghost writes1: seq<nat>, ghost writes2: seq<nat>, ghost writes3: seq<nat>)
    returns (tab1Index: nat, tab2Index: nat, tab3Index: nat, maxNb': nat,
             ghost writes1': seq<nat>, ghost writes2': seq<nat>, ghost writes3': seq<nat>)
    requires n == Pow4(numStages) && |coefs| == 2 * n && stage + 1 < numStages
    requires nbOfElt == StageCount(n, stage) && incr == Pow4(stage)
    requires tab1 != tab2 && tab2 != tab3 && tab1 != tab3
    requires tab1Offset != tab2Offset && tab2Offset != tab3Offset && tab1Offset != tab3Offset
    requires {tab1 as object, tab2, tab3} !! {tab1Offset as object, tab2Offset, tab3Offset}
    requires index == StageOffset(n, stage)
    requires StageOffset(n, numStages - 1) == tab1.Length == tab2.Length == tab3.Length
    requires tab1Offset.Length == tab2Offset.Length == tab3Offset.Length == numStages
    requires FilledUpTo(tab1[..], writes1, index, StrideTable(coefs, numStages, 1, stage))
    requires FilledUpTo(tab2[..], writes2, index, StrideTable(coefs, numStages, 2, stage))
    requires FilledUpTo(tab3[..], writes3, index, StrideTable(coefs, numStages, 3, stage))
    requires tab1Offset[..] == OffsetsUpTo(n, numStages, stage)
    requires tab2Offset[..] == OffsetsUpTo(n, numStages, stage)
    requires tab3Offset[..] == OffsetsUpTo(n, numStages, stage)
    modifies tab1, tab2, tab3, tab1Offset, tab2Offset, tab3Offset
    ensures tab1Index == tab2Index == tab3Index == StageOffset(n, stage + 1)
    ensures maxNb' == maxNb + nbOfElt
    ensures FilledUpTo(tab1[..], writes1', tab1Index, StrideTable(coefs, numStages, 1, stage + 1))
    ensures FilledUpTo(tab2[..], writes2', tab2Index, StrideTable(coefs, numStages, 2, stage + 1))
    ensures FilledUpTo(tab3[..], writes3', tab3Index, StrideTable(coefs, numStages, 3, stage + 1))
    ensures tab1Offset[..] == OffsetsUpTo(n, numStages, stage + 1)
    ensures tab2Offset[..] == OffsetsUpTo(n, numStages, stage + 1)
    ensures tab3Offset[..] == OffsetsUpTo(n, numStages, stage + 1)
    ensures Untouched(tab1[..], old(tab1[..]), tab1Index)
    ensures Untouched(tab2[..], old(tab2[..]), tab2Index)
    ensures Untouched(tab3[..], old(tab3[..]), tab3Index)
  {
    RecordOffset(tab1Offset, n, stage, index);
    RecordOffset(tab2Offset, n, stage, index);
    RecordOffset(tab3Offset, n, stage, index);
    OffsetMonotone(n, stage + 1, numStages - 1);
    BeginStage(tab1[..], writes1, coefs, numStages, 1, stage, incr * 1 * 2);
    BeginStage(tab2[..], writes2, coefs, numStages, 2, stage, incr * 2 * 2);
    BeginStage(tab3[..], writes3, coefs, numStages, 3, stage, incr * 3 * 2);
    tab1Index, tab2Index, tab3Index, maxNb', writes1', writes2', writes3' :=
      ExtractStage(coefs, nbOfElt, incr, tab1, tab2, tab3, index, maxNb, writes1, writes2, writes3,
                   StrideTable(coefs, numStages, 1, stage + 1),
                   StrideTable(coefs, numStages, 2, stage + 1),
                   StrideTable(coefs, numStages, 3, stage + 1));
  }

  /**
    The stage loop of `reorderTwiddle` for a size `n = 4^numStages`, run on
    freshly zeroed tables: stride tables of `StageOffset(n, numStages - 1)`
    slots, none written yet, and offset tables of `numStages` zeros. Stage
    `stage` records the current write position as its offset and extracts
    `n >> 2(stage+1)` pairs per table. Afterwards every slot of every stride
    table has been written exactly once, the tables are `StrideTable` of the
    twiddle vector, and the offset tables list the stage offsets with the
    last entry left at zero.
   */
  method StageLoop<T>(coefs: seq<T>, n: nat, numStages: nat,
                      tab1: array<T>, tab2: array<T>, tab3: array<T>,
                      tab1Offset: array<nat>, tab2Offset: array<nat>, tab3Offset: array<nat>,
                      ghost writes1: seq<nat>, ghost writes2: seq<nat>, ghost writes3: seq<nat>)
    returns (maxNb: nat, ghost writes1': seq<nat>, ghost writes2': seq<nat>, ghost writes3': seq<nat>)
    requires n == Pow4(numStages) && 1 <= numStages && |coefs| == 2 * n
    requires tab1 != tab2 && tab2 != tab3 && tab1 != tab3
    requires tab1Offset != tab2Offset && tab2Offset != tab3Offset && tab1Offset != tab3Offset
    requires {tab1 as object, tab2, tab3} !! {tab1Offset as object, tab2Offset, tab3Offset}
    requires StageOffset(n, numStages - 1) == tab1.Length == tab2.Length == tab3.Length
    requires tab1Offset.Length == tab2Offset.Length == tab3Offset.Length == numStages
    requires writes1 == writes2 == writes3 == WriteCounts(tab1.Length, 0)
    requires tab1Offset[..] == tab2Offset[..] == tab3Offset[..] == OffsetsUpTo(n, numStages, 0)
    modifies tab1, tab2, tab3, tab1Offset, tab2Offset, tab3Offset
    ensures tab1[..] == StrideTable(coefs, numStages, 1, numStages - 1)
    ensures tab2[..] == StrideTable(coefs, numStages, 2, numStages - 1)
    ensures tab3[..] == StrideTable(coefs, numStages, 3, numStages - 1)
    ensures tab1Offset[..] == OffsetTable(n, numStages)
    ensures tab2Offset[..] == OffsetTable(n, numStages)
    ensures tab3Offset[..] == OffsetTable(n, numStages)
    ensures writes1' == writes2' == writes3' == WriteCounts(tab1.Length, tab1.Length)
    ensures 2 * maxNb == tab1.Length
  {
    var incr: nat := 1;
    var nbOfElt: nat := n;
    maxNb := 0;
    var tab1Index: nat, tab2Index: nat, tab3Index: nat := 0, 0, 0;
    writes1', writes2', writes3' := writes1, writes2, writes3;

    var stage: nat := 0;
    while stage < numStages - 1
      invariant stage <= numStages - 1
      invariant incr == Pow4(stage) && nbOfElt == Shifted(n, stage)
      invariant tab1Index == tab2Index == tab3Index == StageOffset(n, stage)
      invariant maxNb == ElementsBefore(n, stage)
      invariant FilledUpTo(tab1[..], writes1', tab1Index, StrideTable(coefs, numStages, 1, stage))
      invariant FilledUpTo(tab2[..], writes2', tab2Index, StrideTable(coefs, numStages, 2, stage))
      invariant FilledUpTo(tab3[..], writes3', tab3Index, StrideTable(coefs, numStages, 3, stage))
      invariant tab1Offset[..] == OffsetsUpTo(n, numStages, stage)
      invariant tab2Offset[..] == OffsetsUpTo(n, numStages, stage)
      invariant tab3Offset[..] == OffsetsUpTo(n, numStages, stage)
    {
      nbOfElt := nbOfElt / 4;
      tab1Index, tab2Index, tab3Index, maxNb, writes1', writes2', writes3' :=
        RunStage(coefs, n, numStages, stage, nbOfElt, incr, tab1, tab2, tab3,
                 tab1Offset, tab2Offset, tab3Offset, tab1Index, maxNb, writes1', writes2', writes3');
      incr := 4 * incr;
      stage := stage + 1;
    }
    assert OffsetsUpTo(n, numStages, numStages - 1) == OffsetTable(n, numStages);
    assert tab1[..] == tab1[..tab1Index];
    assert tab2[..] == tab2[..tab2Index];
    assert tab3[..] == tab3[..tab3Index];
  }

  /**
    `reorderTwiddle` up to the printing: looks the size up in the table of
    supported sizes (4096, 1024, 256, 64, 16), allocates the zero-filled
    stride and offset tables and runs the stage loop. For any other size
    `arraySize` is never bound and the generator fails at the allocation;
    `TwiddleTables.ReorderTwiddle` reports that case before calling this.
   */
  method RearrangeStages<T>(coefs: seq<T>, n: int, zero: T)
    returns (tab1: array<T>, tab2: array<T>, tab3: array<T>,
             tab1Offset: array<nat>, tab2Offset: array<nat>, tab3Offset: array<nat>,
             maxNb: nat, ghost writes1: seq<nat>, ghost writes2: seq<nat>, ghost writes3: seq<nat>)
    requires Lookup(n).Some? && |coefs| == 2 * n
    ensures fresh(tab1) && fresh(tab2) && fresh(tab3)
    ensures fresh(tab1Offset) && fresh(tab2Offset) && fresh(tab3Offset)
    ensures var cfg := Lookup(n).value;
            && n == Pow4(cfg.numStages) && 1 <= cfg.numStages
            && tab1.Length == tab2.Length == tab3.Length == 2 * cfg.arraySize
            && tab1[..] == StrideTable(coefs, cfg.numStages, 1, cfg.numStages - 1)
            && tab2[..] == StrideTable(coefs, cfg.numStages, 2, cfg.numStages - 1)
            && tab3[..] == StrideTable(coefs, cfg.numStages, 3, cfg.numStages - 1)
            && tab1Offset[..] == OffsetTable(n, cfg.numStages)
            && tab2Offset[..] == OffsetTable(n, cfg.numStages)
            && tab3Offset[..] == OffsetTable(n, cfg.numStages)
            && writes1 == writes2 == writes3 == seq(2 * cfg.arraySize, _ => 1)
            && maxNb == cfg.arraySize
  {
    LookupMatchesSchedule(n);
    var numStages := Lookup(n).value.numStages;
    var arraySize := Lookup(n).value.arraySize;

    tab1 := new T[2 * arraySize](_ => zero);
    tab2 := new T[2 * arraySize](_ => zero);
    tab3 := new T[2 * arraySize](_ => zero);
    ghost var noWrites := WriteCounts(2 * arraySize, 0);

    tab1Offset := new nat[numStages](_ => 0);
    tab2Offset := new nat[numStages](_ => 0);
    tab3Offset := new nat[numStages](_ => 0);
    NoOffsets(n, numStages);
    assert tab1Offset[..] == tab2Offset[..] == tab3Offset[..] == OffsetsUpTo(n, numStages, 0);

    maxNb, writes1, writes2, writes3 :=
      StageLoop(coefs, n, numStages, tab1, tab2, tab3, tab1Offset, tab2Offset, tab3Offset,
                noWrites, noWrites, noWrites);
    AllCounted(2 * arraySize);
  }
}
