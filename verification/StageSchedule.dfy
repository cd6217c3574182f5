/**
  The radix-4 stage schedule behind `reorderTwiddle`: the closed table of
  supported sizes, the number of elements each stage extracts, the per-stage
  write offsets into the stride tables, and the contents those tables must
  have. These functions are the specification the in-place method of module
  Rearrange is proved against.

  Throughout, n is the transform size, stage s runs with `incr` = 4^s, and
  during stage s the loop extracts `nbOfElt` = n >> 2(s+1) complex values.
 */
module StageSchedule {

  datatype Option<T> = None | Some(value: T)

  /** The two constants the generator hard-codes per transform size. */
  datatype SizeConfig = SizeConfig(numStages: nat, arraySize: nat)

  /**
    The size table of `reorderTwiddle`. Any other size leaves `arraySize`
    unbound, so the generator fails when it allocates the stride tables;
    that is `None` here.
   */
  function Lookup(n: int): (r: Option<SizeConfig>)
    ensures r.Some? <==> n == 16 || n == 64 || n == 256 || n == 1024 || n == 4096
    ensures r.Some? ==> 2 <= r.value.numStages && n == Pow4(r.value.numStages) && 3 * r.value.arraySize + 4 == n
  {
    assert Pow4(1) == 4 && Pow4(2) == 16 && Pow4(3) == 64;
    assert Pow4(4) == 256 && Pow4(5) == 1024 && Pow4(6) == 4096;
    if n == 4096 then Some(SizeConfig(6, 1364))
    else if n == 1024 then Some(SizeConfig(5, 340))
    else if n == 256 then Some(SizeConfig(4, 84))
    else if n == 64 then Some(SizeConfig(3, 20))
    else if n == 16 then Some(SizeConfig(2, 4))
    else None
  }

  function Pow4(k: nat): (r: nat)
    ensures 1 <= r
  {
    if k == 0 then 1 else 4 * Pow4(k - 1)
  }

  /** `n` shifted right by two bits `k` times, as `nbOfElt = nbOfElt >> 2` does once per stage. */
  function Shifted(n: nat, k: nat): nat
  {
    if k == 0 then n else Shifted(n, k - 1) / 4
  }

  /** The value of `nbOfElt` during stage `s`: the number of complex values each stride table receives in that stage. */
  function StageCount(n: nat, s: nat): nat
  {
    Shifted(n, s + 1)
  }

  /** The number of complex values written before stage `s` starts: the prefix sum of the stage counts. */
  function ElementsBefore(n: nat, s: nat): nat
  {
    if s == 0 then 0 else ElementsBefore(n, s - 1) + StageCount(n, s - 1)
  }

  /** The write cursor `tabKIndex` when stage `s` starts; each complex value takes two slots. */
  function StageOffset(n: nat, s: nat): nat
  {
    2 * ElementsBefore(n, s)
  }

  /**
    The offset table `tabKOffset` of length `numStages`: entry s is the
    cursor at the start of stage s for the stages the loop runs
    (0 .. numStages-2); the last entry is never written and keeps its zero.
   */
  function OffsetTable(n: nat, numStages: nat): seq<nat>
  {
    seq(numStages, s => if 0 <= s < numStages - 1 then StageOffset(n, s) else 0)
  }

  /** Every pair read from `cursor` on, `count` times `step` apart, lies inside a vector of `len` values. */
  predicate PicksInBounds(len: nat, cursor: nat, step: nat, count: nat)
    decreases count
  {
    count == 0 || (cursor + 1 < len && PicksInBounds(len, cursor + step, step, count - 1))
  }

  /**
    The pairs one stage appends to a stride table: `count` complex values
    read from `cursor` on, `step` apart (the read cursor `pVectCoefK`
    advances by `incr * K * 2`).
   */
  function StagePicks<T>(coefs: seq<T>, cursor: nat, step: nat, count: nat): (r: seq<T>)
    requires PicksInBounds(|coefs|, cursor, step, count)
    ensures |r| == 2 * count
    decreases count
  {
    if count == 0 then []
    else [coefs[cursor], coefs[cursor + 1]] + StagePicks(coefs, cursor + step, step, count - 1)
  }

  /** Element i of a stage's picks is the pair read at cursor + step * i. */
  lemma {:induction false} StagePicksAt<T>(coefs: seq<T>, cursor: nat, step: nat, count: nat, i: nat)
    requires PicksInBounds(|coefs|, cursor, step, count) && i < count
    ensures cursor + step * i + 1 < |coefs|
    decreases i
    ensures StagePicks(coefs, cursor, step, count)[2 * i] == coefs[cursor + step * i]
    ensures StagePicks(coefs, cursor, step, count)[2 * i + 1] == coefs[cursor + step * i + 1]
  {
    if i > 0 {
      var rest := StagePicks(coefs, cursor + step, step, count - 1);
      StagePicksAt(coefs, cursor + step, step, count - 1, i - 1);
      MulSucc(step, i - 1);
      assert cursor + step + step * (i - 1) == cursor + step * i;
      var picks := StagePicks(coefs, cursor, step, count);
      assert picks == [coefs[cursor], coefs[cursor + 1]] + rest;
      assert picks[2 * i] == rest[2 * (i - 1)] && picks[2 * i + 1] == rest[2 * (i - 1) + 1];
    }
  }

  lemma {:induction false} PicksInBoundsIntro(len: nat, cursor: nat, step: nat, count: nat)
    requires 0 < count ==> cursor + step * (count - 1) + 1 < len
    ensures PicksInBounds(len, cursor, step, count)
    decreases count
  {
    if count > 0 {
      if count > 1 {
        MulSucc(step, count - 2);
      }
      PicksInBoundsIntro(len, cursor + step, step, count - 1);
    }
  }

  /**
    Stride table K after the first `stages` stages, for a twiddle vector of
    length 2n with n = 4^m: the concatenation of each stage's picks.
   */
  function StrideTable<T>(coefs: seq<T>, m: nat, k: nat, stages: nat): (r: seq<T>)
    requires |coefs| == 2 * Pow4(m) && 1 <= k <= 3 && stages <= m
    ensures |r| == StageOffset(Pow4(m), stages)
  {
    if stages == 0 then []
    else
      StageReadsInBounds(m, k, stages - 1);
      StrideTable(coefs, m, k, stages - 1) + StagePicks(coefs, 0, 2 * k * Pow4(stages - 1), StageCount(Pow4(m), stages - 1))
  }

  lemma {:induction false} Pow4Add(a: nat, b: nat)
    ensures Pow4(a) * Pow4(b) == Pow4(a + b)
  {
    if a > 0 {
      Pow4Add(a - 1, b);
      calc {
        Pow4(a) * Pow4(b);
        4 * Pow4(a - 1) * Pow4(b);
        4 * Pow4(a - 1 + b);
      }
    }
  }

  /** For n = 4^m, shifting k <= m times divides exactly: n >> 2k = 4^(m-k). */
  lemma {:induction false} ShiftedPow4(m: nat, k: nat)
    requires k <= m
    ensures Shifted(Pow4(m), k) == Pow4(m - k)
  {
    if k > 0 {
      ShiftedPow4(m, k - 1);
      assert Pow4(m - (k - 1)) == 4 * Pow4(m - k);
    }
  }

  lemma MulMonotone(a: nat, b: nat, c: nat)
    requires b <= c
    ensures a * b <= a * c
  {
  }

  lemma MulAssoc(a: nat, b: nat, c: nat)
    ensures a * b * c == a * (b * c)
  {
  }

  lemma MulSucc(a: nat, i: nat)
    ensures a * (i + 1) == a * i + a
  {
  }

  /**
    The exponent of the twiddle factor that element i of stage s of stride
    table K holds: K * 4^s * i. The element is read at `2 * TwiddleExponent`,
    its cosine, and the sine after it.
   */
  function TwiddleExponent(k: nat, s: nat, i: nat): nat
  {
    k * Pow4(s) * i
  }

  /** i steps of the read cursor `pVectCoefK += incr * K * 2` reach twice the exponent. */
  lemma StepTimes(k: nat, s: nat, i: nat)
    ensures 2 * k * Pow4(s) * i == 2 * TwiddleExponent(k, s, i)
  {
    MulAssoc(2, k, Pow4(s));
    MulAssoc(2, k * Pow4(s), i);
  }

  /**
    Reads stay inside the twiddle vector: in stage s < m of a size n = 4^m,
    the `StageCount` values picked with stride 2*K*4^s all lie below 2n.
   */
  lemma StepWithinVector(m: nat, k: nat, s: nat)
    requires 1 <= k <= 3 && s < m
    ensures 2 <= 2 * k * Pow4(s)
    ensures 2 * k * Pow4(s) * StageCount(Pow4(m), s) <= 2 * Pow4(m)
  {
    var p, q, w := Pow4(s), Pow4(m - s - 1), Pow4(m - 1);
    ShiftedPow4(m, s + 1);
    assert StageCount(Pow4(m), s) == q;
    Pow4Add(s, m - s - 1);
    assert Pow4(m) == 4 * w;
    StrideBound(k, p, q, w);
  }

  /** The arithmetic of `StepWithinVector`, over plain numbers: with p * q == w, 2kp * q <= 8w. */
  lemma StrideBound(k: nat, p: nat, q: nat, w: nat)
    requires 1 <= k <= 3 && 1 <= p && p * q == w
    ensures 2 <= 2 * k * p
    ensures 2 * k * p * q <= 8 * w
  {
    MulMonotone(2 * p, 1, k);
    MulAssoc(2 * k, p, q);
    MulMonotone(w, 2 * k, 8);
  }

  /**
    Every read `coefs[pVectCoefK]` and `coefs[pVectCoefK + 1]` of stage s < m
    is below 2n: element i < StageCount reads indices 2*K*4^s*i and one more.
   */
  lemma ReadInBounds(m: nat, k: nat, s: nat, i: nat)
    requires 1 <= k <= 3 && s < m && i < StageCount(Pow4(m), s)
    ensures 2 * TwiddleExponent(k, s, i) + 1 < 2 * Pow4(m)
  {
    StepWithinVector(m, k, s);
    var step := 2 * k * Pow4(s);
    MulMonotone(step, i + 1, StageCount(Pow4(m), s));
    MulSucc(step, i);
    StepTimes(k, s, i);
  }

  /** All reads of stage s < m, for every stride table, stay inside the twiddle vector. */
  lemma StageReadsInBounds(m: nat, k: nat, s: nat)
    requires 1 <= k <= 3 && s < m
    ensures PicksInBounds(2 * Pow4(m), 0, 2 * k * Pow4(s), StageCount(Pow4(m), s))
  {
    var count := StageCount(Pow4(m), s);
    if count > 0 {
      ReadInBounds(m, k, s, count - 1);
      StepTimes(k, s, count - 1);
    }
    PicksInBoundsIntro(2 * Pow4(m), 0, 2 * k * Pow4(s), count);
  }

  /** Offsets closed form: for n = 4^m, 3 * StageOffset(n, s) = 2 * (n - 4^(m-s)). */
  lemma {:induction false} OffsetClosedForm(m: nat, s: nat)
    requires s <= m
    ensures 3 * StageOffset(Pow4(m), s) == 2 * (Pow4(m) - Pow4(m - s))
  {
    if s > 0 {
      OffsetClosedForm(m, s - 1);
      ShiftedPow4(m, s);
      assert Pow4(m - (s - 1)) == 4 * Pow4(m - s);
    }
  }

  /** Offsets never decrease from one stage to a later one. */
  lemma {:induction false} OffsetMonotone(n: nat, s: nat, t: nat)
    requires s <= t
    ensures StageOffset(n, s) <= StageOffset(n, t)
    decreases t - s
  {
    if s < t {
      OffsetMonotone(n, s, t - 1);
    }
  }

  /**
    Each supported size is a power of four whose table entry matches the
    stage schedule: n = 4^numStages, and the numStages-1 stages the loop runs
    write exactly 2*arraySize slots (arraySize = n/4 + n/16 + ... + 4).
   */
  lemma LookupMatchesSchedule(n: int)
    requires Lookup(n).Some?
    ensures var cfg := Lookup(n).value;
      && 2 <= cfg.numStages
      && n == Pow4(cfg.numStages)
      && 3 * cfg.arraySize + 4 == n
      && StageOffset(n, cfg.numStages - 1) == 2 * cfg.arraySize
  {
    var m := Lookup(n).value.numStages;
    OffsetClosedForm(m, m - 1);
  }

  /**
    The offset table of a supported size: numStages entries, the last one 0,
    and the others non-decreasing, the first one 0.
   */
  lemma OffsetTableShape(n: int, s: nat, t: nat)
    requires Lookup(n).Some?
    requires s <= t < Lookup(n).value.numStages - 1
    ensures var table := OffsetTable(n, Lookup(n).value.numStages);
      && |table| == Lookup(n).value.numStages
      && table[|table| - 1] == 0
      && table[0] == 0
      && table[s] <= table[t]
  {
    LookupMatchesSchedule(n);
    OffsetMonotone(n, s, t);
  }

  /**
    Slot contents: in stage s, element i of stride table K sits at positions
    offset + 2i and offset + 2i + 1, and holds coefs[2*K*4^s*i] and the value
    after it.
   */
  lemma {:induction false} StrideTableAt<T>(coefs: seq<T>, m: nat, k: nat, stages: nat, s: nat, i: nat)
    requires |coefs| == 2 * Pow4(m) && 1 <= k <= 3 && stages <= m
    requires s < stages && i < StageCount(Pow4(m), s)
    ensures 2 * TwiddleExponent(k, s, i) + 1 < |coefs|
    ensures StageOffset(Pow4(m), s) + 2 * i + 1 < |StrideTable(coefs, m, k, stages)|
    ensures StrideTable(coefs, m, k, stages)[StageOffset(Pow4(m), s) + 2 * i] == coefs[2 * TwiddleExponent(k, s, i)]
    ensures StrideTable(coefs, m, k, stages)[StageOffset(Pow4(m), s) + 2 * i + 1] == coefs[2 * TwiddleExponent(k, s, i) + 1]
  {
    ReadInBounds(m, k, s, i);
    var n, last := Pow4(m), stages - 1;
    StageReadsInBounds(m, k, last);
    var prefix := StrideTable(coefs, m, k, last);
    var picks := StagePicks(coefs, 0, 2 * k * Pow4(last), StageCount(n, last));
    assert StrideTable(coefs, m, k, stages) == prefix + picks;
    if s == last {
      StagePicksAt(coefs, 0, 2 * k * Pow4(s), StageCount(n, s), i);
      StepTimes(k, s, i);
    } else {
      StrideTableAt(coefs, m, k, last, s, i);
      OffsetMonotone(n, s + 1, last);
    }
  }

  /** Every slot below StageOffset(n, stages) belongs to some stage s and some element i of it (unique by `SlotOwnerUnique`). */
  lemma {:induction false} SlotStage(n: nat, stages: nat, j: nat) returns (s: nat, i: nat)
    requires j < StageOffset(n, stages)
    ensures s < stages && i < StageCount(n, s)
    ensures j == StageOffset(n, s) + 2 * i + j % 2
  {
    if j < StageOffset(n, stages - 1) {
      s, i := SlotStage(n, stages - 1, j);
    } else {
      s := stages - 1;
      i := (j - StageOffset(n, s)) / 2;
    }
  }

  /** A later stage starts no earlier than the end of an earlier one. */
  lemma OffsetOrder(n: nat, s: nat, t: nat)
    ensures s < t ==> StageOffset(n, s + 1) <= StageOffset(n, t)
  {
    if s < t {
      OffsetMonotone(n, s + 1, t);
    }
  }

  /**
    No slot is shared: if slot j is both element i of stage s and element
    i' of stage s', then s == s' and i == i'.
   */
  lemma SlotOwnerUnique(n: nat, j: nat, s: nat, i: nat, s': nat, i': nat)
    requires i < StageCount(n, s) && j == StageOffset(n, s) + 2 * i + j % 2
    requires i' < StageCount(n, s') && j == StageOffset(n, s') + 2 * i' + j % 2
    ensures s == s' && i == i'
  {
    OffsetOrder(n, s, s');
    OffsetOrder(n, s', s);
  }

  /**
    Slot j of stride table K after `stages` stages comes from stage s,
    element i, and holds coefs[src] with src = 2*K*4^s*i + j%2.
   */
  lemma StrideSlot<T>(coefs: seq<T>, m: nat, k: nat, stages: nat, j: nat) returns (s: nat, i: nat, src: nat)
    requires |coefs| == 2 * Pow4(m) && 1 <= k <= 3 && stages <= m
    requires j < StageOffset(Pow4(m), stages)
    ensures s < stages && i < StageCount(Pow4(m), s)
    ensures j == StageOffset(Pow4(m), s) + 2 * i + j % 2
    ensures src == 2 * TwiddleExponent(k, s, i) + j % 2 && src < |coefs|
    ensures StrideTable(coefs, m, k, stages)[j] == coefs[src]
  {
    s, i := SlotStage(Pow4(m), stages, j);
    var index := 2 * TwiddleExponent(k, s, i);
    StrideTableAt(coefs, m, k, stages, s, i);
    if j % 2 == 0 {
      src := index;
      assert StrideTable(coefs, m, k, stages)[j] == coefs[src] by {
        assert j == StageOffset(Pow4(m), s) + 2 * i;
      }
    } else {
      src := index + 1;
      assert StrideTable(coefs, m, k, stages)[j] == coefs[src] by {
        assert j == StageOffset(Pow4(m), s) + 2 * i + 1;
      }
    }
  }

  /**
    Closed form of every slot: slot j of stride table K (for a supported
    size, after the numStages-1 stages the generator runs) comes from
    stage s, element i, and holds coefs[2*K*4^s*i + j%2].
   */
  lemma SlotSource<T>(coefs: seq<T>, n: int, k: nat, j: nat) returns (s: nat, i: nat, src: nat)
    requires Lookup(n).Some? && |coefs| == 2 * n && 1 <= k <= 3
    requires j < 2 * Lookup(n).value.arraySize
    ensures var m := Lookup(n).value.numStages;
      && s < m - 1 && i < StageCount(n, s)
      && j == StageOffset(n, s) + 2 * i + j % 2
      && src == 2 * TwiddleExponent(k, s, i) + j % 2 && src < |coefs|
      && |StrideTable(coefs, m, k, m - 1)| == 2 * Lookup(n).value.arraySize
      && StrideTable(coefs, m, k, m - 1)[j] == coefs[src]
  {
    var m := Lookup(n).value.numStages;
    LookupMatchesSchedule(n);
    s, i, src := StrideSlot(coefs, m, k, m - 1, j);
  }
}
