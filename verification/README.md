# Rearranged MVE twiddle tables, modelled in Dafny

`CMSIS/DSP/Scripts/genMVETwiddleCoefs.py` generates the C source and header
that hold the twiddle-factor tables used by the Helium (MVE) radix-4 complex
FFT kernels of CMSIS-DSP. For each transform size n in {16, 64, 256, 1024,
4096} it does the following:

- It builds the interleaved twiddle vector (cos 0, sin 0, cos 1, sin 1, ...).
- It runs `numStages - 1` radix-4 reduction stages. Each stage copies every
  1st, 2nd and 3rd strided complex factor into three stride tables, and
  records each stage's start in three offset tables.
- It writes all six tables as wrapped C array definitions into the source
  file, and as `extern` declarations into the header. Both are enclosed in a
  per-size `#if` guard.

This project models that integer-and-sequence core. The coefficients have a
generic element type, and the float rendering is a parameter.

| module | models |
|---|---|
| `Decimal` | `%d` rendering of naturals, plus a parser that reads it back |
| `TwiddleLayout` | the interleave `r[0::2] = c`, `r[1::2] = s` of `twiddle` |
| `StageSchedule` | the size table, the radix-4 stage counts, the offsets as prefix sums, and the stride tables as functions |
| `Rearrange` | the in-place stage loops of `reorderTwiddle` over arrays, proved against `StageSchedule` |
| `ArrayText` | `printCUInt32Array`, `printCFloat32Array`, `printHUInt32Array`, `printHFloat32Array`: the greedy wrap at `COLLIM` and the declarations |
| `TwiddleTables` | `reorderTwiddle` end to end: the guard line, the table names and the text emitted to both files |

Stage `s` runs with `incr = 4^s` and extracts `nbOfElt = n >> 2(s+1)` complex
values per table.

- Stride table K reads them from the twiddle vector with stride
  `incr * K * 2`.
- Element i of stage s therefore holds the factor of exponent `K * 4^s * i`,
  at slots `offset[s] + 2i` (cosine) and `offset[s] + 2i + 1` (sine).
- The model proves the following for all supported sizes:
  - every read and every write is in bounds;
  - every stride-table slot is written exactly once;
  - the offsets are the prefix sums of the stage counts, and the last entry
    is never written.

## Model

| member | source | states |
|---|---|---|
| Decimal.NatToString | CMSIS/DSP/Scripts/genMVETwiddleCoefs.py:21 | The `%d` numeral of a natural is a non-empty digit string without a leading zero |
| Decimal.ParseRender | CMSIS/DSP/Scripts/genMVETwiddleCoefs.py:18 | Reading back the `%d` rendering of any natural gives that natural |
| Decimal.RenderInjective | CMSIS/DSP/Scripts/genMVETwiddleCoefs.py:18 | Distinct naturals render to distinct numerals |
| TwiddleLayout.Twiddle | CMSIS/DSP/Scripts/genMVETwiddleCoefs.py:55-58 | The twiddle vector has length 2n, with cosine k at position 2k and sine k at position 2k+1 |
| TwiddleLayout.TwiddleAt | CMSIS/DSP/Scripts/genMVETwiddleCoefs.py:55-58 | Helper: the pointwise instance of `Twiddle`'s own contract at one index j, used by the proofs about slices and stride tables |
| TwiddleLayout.TwiddleSlices | CMSIS/DSP/Scripts/genMVETwiddleCoefs.py:56-57 | The slices `r[0::2]` and `r[1::2]` of the twiddle vector are exactly the cosines and the sines |
| TwiddleLayout.TwiddleUnique | CMSIS/DSP/Scripts/genMVETwiddleCoefs.py:55-58 | A 2n vector whose even and odd slices are c and s is the twiddle vector, so the two slice assignments determine it |
| StageSchedule.Lookup | CMSIS/DSP/Scripts/genMVETwiddleCoefs.py:61-83 | Exactly the sizes 16, 64, 256, 1024 and 4096 have an entry. Each entry has n = 4^numStages with numStages ≥ 2, and 3·arraySize + 4 = n |
| StageSchedule.LookupMatchesSchedule | CMSIS/DSP/Scripts/genMVETwiddleCoefs.py:65-92 | Each size of the size table is 4^numStages. Its arraySize satisfies 3·arraySize + 4 = n. The numStages-1 stages fill exactly 2·arraySize slots |
| StageSchedule.StagePicks | CMSIS/DSP/Scripts/genMVETwiddleCoefs.py:114-118 | One stage appends 2·count values to a stride table |
| StageSchedule.StrideTable | CMSIS/DSP/Scripts/genMVETwiddleCoefs.py:104-132 | After `stages` stages a stride table holds exactly as many values as the offset of stage `stages` |
| StageSchedule.ReadInBounds | CMSIS/DSP/Scripts/genMVETwiddleCoefs.py:105-128 | For every stage s and element i < nbOfElt, the read index 2·K·4^s·i of table K, and the index after it, are below 2n (the position itself is `StagePicksAt` with `StepTimes`) |
| StageSchedule.StageReadsInBounds | CMSIS/DSP/Scripts/genMVETwiddleCoefs.py:105-128 | All nbOfElt reads of a stage, for each stride, stay inside the twiddle vector |
| StageSchedule.OffsetClosedForm | CMSIS/DSP/Scripts/genMVETwiddleCoefs.py:104-117 | The write cursor at the start of stage s satisfies 3·offset = 2·(n − 4^(m−s)) for n = 4^m |
| StageSchedule.OffsetMonotone | CMSIS/DSP/Scripts/genMVETwiddleCoefs.py:110-117 | The stage offsets never decrease |
| StageSchedule.OffsetTableShape | CMSIS/DSP/Scripts/genMVETwiddleCoefs.py:98-112 | For a supported size, the offset table has numStages entries. Its first and last entries are 0, and the recorded entries are non-decreasing |
| StageSchedule.StagePicksAt | CMSIS/DSP/Scripts/genMVETwiddleCoefs.py:114-118 | Pair i of a stage is read at cursor + step·i and cursor + step·i + 1, inside the vector: after i iterations `pVectCoefK` has moved by i·step |
| StageSchedule.StepTimes | CMSIS/DSP/Scripts/genMVETwiddleCoefs.py:118 | i steps of `incr * K * 2` move the read cursor to exactly twice the twiddle exponent K·4^s·i |
| StageSchedule.SlotOwnerUnique | CMSIS/DSP/Scripts/genMVETwiddleCoefs.py:104-130 | No slot is shared: two (stage, element) pairs that claim the same slot are equal, so each slot is written by one iteration only |
| StageSchedule.StrideTableAt | CMSIS/DSP/Scripts/genMVETwiddleCoefs.py:104-132 | Element i of stage s sits at offset[s]+2i and offset[s]+2i+1, holding coefs[2·K·4^s·i] and the value after it |
| StageSchedule.StrideSlot | CMSIS/DSP/Scripts/genMVETwiddleCoefs.py:104-132 | Every slot j belongs to some stage s and element i of it, and holds coefs[2·K·4^s·i + j%2]; that owner is unique by `SlotOwnerUnique` |
| StageSchedule.SlotSource | CMSIS/DSP/Scripts/genMVETwiddleCoefs.py:60-132 | For every supported size, every one of the 2·arraySize slots has that closed-form source index |
| Rearrange.RecordOffset | CMSIS/DSP/Scripts/genMVETwiddleCoefs.py:110-112 | `tabKOffset[stage] = tabKIndex` records the stage's prefix-sum offset and changes no other entry |
| Rearrange.CopyPair | CMSIS/DSP/Scripts/genMVETwiddleCoefs.py:115-118 | Copying one pair writes exactly the two slots at the write cursor, inside the table. It advances the cursors by 2 and by `step`, and leaves one pair fewer pending |
| Rearrange.ExtractStage | CMSIS/DSP/Scripts/genMVETwiddleCoefs.py:114-130 | The inner loop appends the stage's pending pairs to all three tables, each slot written once, and leaves every slot from the returned cursor on as it was. The three write cursors stay equal and maxNb grows by nbOfElt |
| Rearrange.RunStage | CMSIS/DSP/Scripts/genMVETwiddleCoefs.py:105-130 | One stage moves all six tables from their state after `stage` stages to their state after `stage + 1`, leaving the stride-table slots from the new cursor on untouched |
| Rearrange.StageLoop | CMSIS/DSP/Scripts/genMVETwiddleCoefs.py:85-132 | The stage loop fills each stride table exactly: every slot is written once, with the schedule's value. Each offset table equals the prefix-sum table with its last entry left 0 |
| Rearrange.RearrangeStages | CMSIS/DSP/Scripts/genMVETwiddleCoefs.py:60-132 | For a supported size, the fresh stride tables of 2·arraySize slots end up as the stride tables of the twiddle vector. Every slot is written exactly once, the three offset tables are identical, and maxNb = arraySize |
| ArrayText.Layout | CMSIS/DSP/Scripts/genMVETwiddleCoefs.py:20-26 | The greedy layout always has a first line, which is empty when the first element alone exceeds COLLIM; its content, wrap bound and wrap rule are `LayoutFlatten`, `LayoutWellWrapped` and `LayoutStep` |
| ArrayText.LayoutLineCount | CMSIS/DSP/Scripts/genMVETwiddleCoefs.py:20-26 | The body has at most one line per element besides the first line |
| ArrayText.Place | CMSIS/DSP/Scripts/genMVETwiddleCoefs.py:22-26 | One wrap step starts a new line with the element exactly when the current line's length plus the element's exceeds COLLIM; otherwise it appends to the current line |
| ArrayText.LayoutFlatten | CMSIS/DSP/Scripts/genMVETwiddleCoefs.py:20-26 | The wrapped lines, read in order, hold every element once and in order |
| ArrayText.LayoutWellWrapped | CMSIS/DSP/Scripts/genMVETwiddleCoefs.py:11-26 | Every body line is at most COLLIM characters unless it is a single element. Every break is forced by the element after it |
| ArrayText.LayoutStep | CMSIS/DSP/Scripts/genMVETwiddleCoefs.py:22-25 | Adding an element adds a line break before it if and only if the last line's length plus the element's exceeds COLLIM |
| ArrayText.WrapElements | CMSIS/DSP/Scripts/genMVETwiddleCoefs.py:17-26 | The `nb` counting loop emits exactly the greedy layout's lines, joined by newlines |
| ArrayText.WrapKeepsContent | CMSIS/DSP/Scripts/genMVETwiddleCoefs.py:20-26 | Deleting the inserted newlines from the body gives the elements concatenated in order |
| ArrayText.UIntElement | CMSIS/DSP/Scripts/genMVETwiddleCoefs.py:21 | An unsigned element `%d,` holds no newline and exactly one comma |
| ArrayText.FloatElement | CMSIS/DSP/Scripts/genMVETwiddleCoefs.py:35 | A float element `%.20ff,` adds exactly one comma and no newline to its rendering |
| ArrayText.BodyEntryCount | CMSIS/DSP/Scripts/genMVETwiddleCoefs.py:20-26 | A body of single-comma elements has exactly one comma per element |
| ArrayText.UIntEntryCount | CMSIS/DSP/Scripts/genMVETwiddleCoefs.py:16-28 | A `uint32_t` body holds exactly len(arr) comma-terminated entries |
| ArrayText.FloatEntryCount | CMSIS/DSP/Scripts/genMVETwiddleCoefs.py:30-42 | A `float32_t` body holds exactly len(arr) comma-terminated entries |
| ArrayText.DeclaredLength | CMSIS/DSP/Scripts/genMVETwiddleCoefs.py:18 | The digits between the brackets of the definition header read back as the element count |
| ArrayText.ExternMatchesDefinition | CMSIS/DSP/Scripts/genMVETwiddleCoefs.py:16-18 | The first line of a definition is the declarator followed by `={` |
| ArrayText.PrintCUInt32Array | CMSIS/DSP/Scripts/genMVETwiddleCoefs.py:16-28 | The text is the header with len(arr), then the wrapped `%d,` elements, then `};` and an empty line |
| ArrayText.PrintCFloat32Array | CMSIS/DSP/Scripts/genMVETwiddleCoefs.py:30-42 | The text is the header with len(arr), then the wrapped `%.20ff,` elements, then `};` and an empty line |
| ArrayText.HUInt32Array | CMSIS/DSP/Scripts/genMVETwiddleCoefs.py:44-45 | The `extern uint32_t` declaration ends in `;` and a newline, and is a single line when the name has no newline |
| ArrayText.HFloat32Array | CMSIS/DSP/Scripts/genMVETwiddleCoefs.py:47-48 | The `extern float32_t` declaration ends in `;` and a newline, and is a single line when the name has no newline |
| ArrayText.UIntExternMatches | CMSIS/DSP/Scripts/genMVETwiddleCoefs.py:44-45 | The `extern uint32_t` line names the same type, identifier and length as the first line of the definition |
| ArrayText.FloatExternMatches | CMSIS/DSP/Scripts/genMVETwiddleCoefs.py:47-48 | The `extern float32_t` line names the same type, identifier and length as the first line of the definition |
| TwiddleTables.GuardTail | CMSIS/DSP/Scripts/genMVETwiddleCoefs.py:13-14 | The guard text after the first `%d` starts with a non-digit, so the numeral before it is delimited |
| TwiddleTables.Condition | CMSIS/DSP/Scripts/genMVETwiddleCoefs.py:134-135 | The guard line `condition % (n, n << 1)` has the template head followed by the digits of n, ended by a non-digit, and closes with the digits of 2n, `)` and a newline; both numerals read back as n and 2n |
| TwiddleTables.ConditionInjective | CMSIS/DSP/Scripts/genMVETwiddleCoefs.py:134-135 | Distinct sizes produce distinct guard lines |
| TwiddleTables.OffsetName | CMSIS/DSP/Scripts/genMVETwiddleCoefs.py:136-143 | `rearranged_twiddle_tab_stride{K}_arr_{n}` is a valid C identifier without newlines, so the extern lemmas apply to it |
| TwiddleTables.CoefName | CMSIS/DSP/Scripts/genMVETwiddleCoefs.py:145-152 | `rearranged_twiddle_stride{K}_{n}` is a valid C identifier without newlines |
| TwiddleTables.CoefNameInjective | CMSIS/DSP/Scripts/genMVETwiddleCoefs.py:145-152 | Distinct (stride, size) pairs produce distinct coefficient table names |
| TwiddleTables.OffsetNameInjective | CMSIS/DSP/Scripts/genMVETwiddleCoefs.py:136-143 | Distinct (stride, size) pairs produce distinct offset table names |
| TwiddleTables.OffsetAndCoefNamesDiffer | CMSIS/DSP/Scripts/genMVETwiddleCoefs.py:136-152 | No offset table name equals a coefficient table name |
| TwiddleTables.ReorderTwiddle | CMSIS/DSP/Scripts/genMVETwiddleCoefs.py:60-154 | An unsupported size fails before anything is written. For a supported size, both files receive the guard, the three offset tables, the three stride tables of the twiddle vector and `#endif`, in the generator's order |
| TwiddleTables.StrideEntryIsTwiddle | CMSIS/DSP/Scripts/genMVETwiddleCoefs.py:104-132 | At entry offset[st] + 2i, stride table K holds the cosine, and after it the sine, of exponent K·4^st·i, and that exponent is below n |

## Left out

- The values of the twiddle factors (`np.linspace`, `np.cos`, `np.sin`) are floating-point trigonometry. The cosines and sines are a generic element type given as parameters.
- The `%.20f` float rendering is a parameter `render`, or pre-rendered strings in `PrintCFloat32Array`.
- Command-line parsing, file opening, the license header and footer text, and the driver that calls `reorderTwiddle` for the five sizes in turn are I/O and constant text. The model returns the text appended to each file.
- `np.zeros` creates float arrays. The offset tables are modelled as arrays of naturals, since they only ever hold integer cursor values and are printed with `%d`.
- `maxNb` is never used by the generator. It is kept as a plain counter, shown to end equal to arraySize.
- Rearrange.RearrangeStages: requires a supported size. The failure of the allocation for other sizes is modelled one level up, where `TwiddleTables.ReorderTwiddle` returns `ok = false` with no text.
- ArrayText.FloatEntryCount: requires that the renderings contain no comma and no newline, which holds for `%.20f` output of finite values but is not derived here.
- `};` follows the last element on the same line, so that final line can exceed `COLLIM`. The wrap bound is stated for the body lines only.
- The counter `nb` starts at 0 after the header line. If the first element alone is longer than `COLLIM`, the body starts with an empty line, and the model reproduces this.
- For n = 16 the code produces offset tables [0, 0], since the last entry is never written (`StageSchedule.OffsetTableShape`).
- The generator keeps no record of how often each slot is written. `Rearrange` tracks this in ghost write-count sequences, updated next to each write, to state that every slot is written exactly once.
