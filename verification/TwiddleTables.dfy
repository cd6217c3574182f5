/**
  `reorderTwiddle` as a whole for one FFT size: the twiddle vector, the
  stride and offset tables, and the text appended to the C source file and
  to the C header, both wrapped in the configuration guard of that size.
  Also the names of the generated arrays and the guard line.
 */
module TwiddleTables {
  import opened Decimal
  import opened TwiddleLayout
  import opened StageSchedule
  import opened Rearrange
  import opened ArrayText

  /** The `condition` template up to its first `%d`. */
  const GuardHead: string :=
    "#if !defined(ARM_DSP_CONFIG_TABLES) || defined(ARM_ALL_FFT_TABLES) || defined(ARM_TABLE_TWIDDLECOEF_F32_"

  /** The `condition` template between its two `%d`s. */
  const GuardMiddle: string := ") || defined(ARM_TABLE_TWIDDLECOEF_F32_"

  /** The `condition` template from its first `%d` on, with `m` for the second `%d`. */
  function GuardTail(m: nat): (t: string)
    ensures t != [] && !IsDigit(t[0])
  {
    GuardMiddle + NatToString(m) + ")\n"
  }

  /**
    A guard line for size `n` after the fixed text `head`: the digits of `n`
    follow `head` and are ended by a non-digit, and the line closes with the
    digits of `n << 1`, `)` and a newline.
   */
  predicate NamesSize(g: string, head: string, n: nat)
  {
    var a, d, e := |head|, |NatToString(n)|, |NatToString(2 * n)|;
    && a + d < |g| && g[..a] == head && !IsDigit(g[a + d])
    && AllDigits(g[a..a + d]) && ParseDecimal(g[a..a + d]) == n
    && e + 2 <= |g| && g[|g| - 2..] == ")\n"
    && AllDigits(g[|g| - 2 - e..|g| - 2]) && ParseDecimal(g[|g| - 2 - e..|g| - 2]) == 2 * n
  }

  /** Any head, then the numeral of `n`, then a middle starting with a non-digit, the numeral of `2n` and `)\n`, names `n`. */
  lemma GuardNamesSize(head: string, middle: string, n: nat)
    requires middle != [] && !IsDigit(middle[0])
    ensures NamesSize(head + NatToString(n) + (middle + NatToString(2 * n) + ")\n"), head, n)
  {
    var tail := middle + NatToString(2 * n) + ")\n";
    NumeralBetween(head, n, tail);
    NumeralBetween(head + NatToString(n) + middle, 2 * n, ")\n");
    assert head + NatToString(n) + tail == (head + NatToString(n) + middle) + NatToString(2 * n) + ")\n";
  }

  /** The `condition` guard instantiated for size `n`; it names the macros of `n` and of `n << 1`. */
  function Condition(n: nat): (g: string)
    ensures NamesSize(g, GuardHead, n)
  {
    GuardNamesSize(GuardHead, GuardMiddle, n);
    GuardHead + NatToString(n) + GuardTail(2 * n)
  }

  /** In `a`, then the numeral of `x`, then `r`, the numeral sits right after `a` and reads back as `x`. */
  lemma NumeralBetween(a: string, x: nat, r: string)
    ensures var w, d := a + NatToString(x) + r, |NatToString(x)|;
            && |a| + d + |r| == |w| && w[..|a|] == a && w[|a| + d..] == r
            && AllDigits(w[|a|..|a| + d]) && ParseDecimal(w[|a|..|a| + d]) == x
  {
    var w, d := a + NatToString(x) + r, |NatToString(x)|;
    assert w[|a|..|a| + d] == NatToString(x);
    assert w[..|a|] == a;
    assert w[|a| + d..] == r;
    ParseRender(x);
  }

  /** A character that may appear in a C identifier. */
  predicate IdentChar(c: char)
  {
    'a' <= c <= 'z' || 'A' <= c <= 'Z' || IsDigit(c) || c == '_'
  }

  predicate IdentText(s: string)
  {
    forall i :: 0 <= i < |s| ==> IdentChar(s[i])
  }

  /** A valid C identifier: identifier characters, not starting with a digit. */
  predicate CIdentifier(s: string)
  {
    s != [] && !IsDigit(s[0]) && IdentText(s)
  }

  lemma AppendIdent(a: string, b: string)
    requires IdentText(a) && IdentText(b)
    ensures IdentText(a + b)
  {
    assert forall i :: |a| <= i < |a + b| ==> (a + b)[i] == b[i - |a|];
  }

  /** Name of the offset table of stride `k` for size `n`; it is a valid C identifier. */
  function OffsetName(k: nat, n: nat): (name: string)
    ensures CIdentifier(name) && NoNewline(name)
  {
    var p, q := "rearranged_twiddle_tab_stride", "_arr_";
    assert IdentText(p) && IdentText(q);
    AppendIdent(p, NatToString(k));
    AppendIdent(q, NatToString(n));
    AppendIdent(p + NatToString(k), q + NatToString(n));
    p + NatToString(k) + (q + NatToString(n))
  }

  /** Name of the coefficient table of stride `k` for size `n`; it is a valid C identifier. */
  function CoefName(k: nat, n: nat): (name: string)
    ensures CIdentifier(name) && NoNewline(name)
  {
    var p, q := "rearranged_twiddle_stride", "_";
    assert IdentText(p) && IdentText(q);
    AppendIdent(p, NatToString(k));
    AppendIdent(q, NatToString(n));
    AppendIdent(p + NatToString(k), q + NatToString(n));
    p + NatToString(k) + (q + NatToString(n))
  }

  /** The `%.20f` renderings of the values of a table. */
  function Rendered<T>(tab: seq<T>, render: T -> string): (r: seq<string>)
    ensures |r| == |tab|
    ensures forall i :: 0 <= i < |tab| ==> r[i] == render(tab[i])
  {
    seq(|tab|, i requires 0 <= i < |tab| => render(tab[i]))
  }

  /** The text `reorderTwiddle` appends to the C source file for size `n`. */
  function SourceText(n: nat, offsets: seq<nat>, tab1: seq<string>, tab2: seq<string>, tab3: seq<string>): string
  {
    Condition(n) + "\n"
    + DefinitionText("uint32_t", OffsetName(1, n), UIntElements(offsets))
    + DefinitionText("uint32_t", OffsetName(2, n), UIntElements(offsets))
    + DefinitionText("uint32_t", OffsetName(3, n), UIntElements(offsets))
    + DefinitionText("float32_t", CoefName(1, n), FloatElements(tab1))
    + DefinitionText("float32_t", CoefName(2, n), FloatElements(tab2))
    + DefinitionText("float32_t", CoefName(3, n), FloatElements(tab3))
    + "#endif\n\n"
  }

  /** The text `reorderTwiddle` appends to the C header for size `n`. */
  function HeaderText(n: nat, offsets: seq<nat>, tab1: seq<string>, tab2: seq<string>, tab3: seq<string>): string
  {
    Condition(n) + "\n"
    + HUInt32Array(OffsetName(1, n), offsets)
    + HUInt32Array(OffsetName(2, n), offsets)
    + HUInt32Array(OffsetName(3, n), offsets)
    + HFloat32Array(CoefName(1, n), tab1)
    + HFloat32Array(CoefName(2, n), tab2)
    + HFloat32Array(CoefName(3, n), tab3)
    + "#endif\n\n"
  }

  /**
    `reorderTwiddle(f, h, n)`: `c` and `s` are the n cosines and sines of
    `twiddle(n)`, `render` is the `%.20f` conversion. For a size of the size
    table, returns what is written to `f` and to `h`: the guard, the three
    offset tables, the three coefficient tables and `#endif`, with the
    tables the stage schedule prescribes. For any other size `arraySize` is
    never bound, the generator stops before writing anything, and `ok` is
    false.
   */
  method ReorderTwiddle<T>(c: seq<T>, s: seq<T>, n: nat, zero: T, render: T -> string)
    returns (ok: bool, cText: string, hText: string)
    requires |c| == |s| == n
    ensures ok <==> Lookup(n).Some?
    ensures !ok ==> cText == [] && hText == []
    ensures ok ==>
            var m := Lookup(n).value.numStages;
            var coefs := Twiddle(c, s);
            var offsets := OffsetTable(n, m);
            var r1 := Rendered(StrideTable(coefs, m, 1, m - 1), render);
            var r2 := Rendered(StrideTable(coefs, m, 2, m - 1), render);
            var r3 := Rendered(StrideTable(coefs, m, 3, m - 1), render);
            && cText == SourceText(n, offsets, r1, r2, r3)
            && hText == HeaderText(n, offsets, r1, r2, r3)
  {
    if Lookup(n).None? {
      return false, [], [];
    }
    ok := true;
    var coefs := Twiddle(c, s);
    var tab1, tab2, tab3, tab1Offset, tab2Offset, tab3Offset, maxNb, writes1, writes2, writes3 :=
      RearrangeStages(coefs, n, zero);

    var guard := Condition(n) + "\n";
    cText, hText := guard, guard;

    var text := PrintCUInt32Array(OffsetName(1, n), tab1Offset[..]);
    cText, hText := cText + text, hText + HUInt32Array(OffsetName(1, n), tab1Offset[..]);
    text := PrintCUInt32Array(OffsetName(2, n), tab2Offset[..]);
    cText, hText := cText + text, hText + HUInt32Array(OffsetName(2, n), tab2Offset[..]);
    text := PrintCUInt32Array(OffsetName(3, n), tab3Offset[..]);
    cText, hText := cText + text, hText + HUInt32Array(OffsetName(3, n), tab3Offset[..]);

    text := PrintCFloat32Array(CoefName(1, n), Rendered(tab1[..], render));
    cText, hText := cText + text, hText + HFloat32Array(CoefName(1, n), Rendered(tab1[..], render));
    text := PrintCFloat32Array(CoefName(2, n), Rendered(tab2[..], render));
    cText, hText := cText + text, hText + HFloat32Array(CoefName(2, n), Rendered(tab2[..], render));
    text := PrintCFloat32Array(CoefName(3, n), Rendered(tab3[..], render));
    cText, hText := cText + text, hText + HFloat32Array(CoefName(3, n), Rendered(tab3[..], render));

    cText, hText := cText + "#endif\n\n", hText + "#endif\n\n";
  }

  /**
    What the MVE kernels read: for the size `4^m`, in stage `st` the
    stride-`k` table holds, from the stage's recorded offset on, the twiddle
    factors of exponent `k * 4^st * i` as (cosine, sine) pairs. Every size
    of the size table is such a `4^m` (`LookupMatchesSchedule`).
   */
  lemma StrideEntryIsTwiddle<T>(c: seq<T>, s: seq<T>, m: nat, k: nat, st: nat, i: nat)
    requires |c| == |s| == Pow4(m) && 1 <= k <= 3
    requires st < m - 1 && i < StageCount(Pow4(m), st)
    ensures var tab := StrideTable(Twiddle(c, s), m, k, m - 1);
            var off := OffsetTable(Pow4(m), m)[st];
            && TwiddleExponent(k, st, i) < |c|
            && off + 2 * i + 1 < |tab|
            && tab[off + 2 * i] == c[TwiddleExponent(k, st, i)]
            && tab[off + 2 * i + 1] == s[TwiddleExponent(k, st, i)]
  {
    var off := OffsetTable(Pow4(m), m)[st];
    assert off == StageOffset(Pow4(m), st);
    StrideTableAt(Twiddle(c, s), m, k, m - 1, st, i);
    TwiddleAt(c, s, TwiddleExponent(k, st, i));
  }

  /** Number of digit characters at the start of `w`. */
  function LeadingDigits(w: string): nat
  {
    if w == [] || !IsDigit(w[0]) then 0 else 1 + LeadingDigits(w[1..])
  }

  /** A digit string followed by a non-digit is exactly the run of leading digits. */
  lemma {:induction false} LeadingDigitsOf(a: string, r: string)
    requires AllDigits(a) && r != [] && !IsDigit(r[0])
    ensures LeadingDigits(a + r) == |a|
    decreases |a|
  {
    if a == [] {
      assert a + r == r;
    } else {
      assert (a + r)[1..] == a[1..] + r;
      LeadingDigitsOf(a[1..], r);
    }
  }

  /** A numeral followed by a non-digit is determined by the text it starts. */
  lemma NumeralPrefix(x: nat, y: nat, r1: string, r2: string)
    requires r1 != [] && r2 != [] && !IsDigit(r1[0]) && !IsDigit(r2[0])
    requires NatToString(x) + r1 == NatToString(y) + r2
    ensures x == y && r1 == r2
  {
    var a, b := NatToString(x), NatToString(y);
    LeadingDigitsOf(a, r1);
    LeadingDigitsOf(b, r2);
    assert a == (a + r1)[..|a|] && b == (b + r2)[..|b|];
    RenderInjective(x, y);
    assert r1 == (a + r1)[|a|..] && r2 == (b + r2)[|b|..];
  }

  /** Behind a common prefix, a numeral followed by a non-digit is determined by the text. */
  lemma NumeralAfter(p: string, x: nat, y: nat, r1: string, r2: string)
    requires r1 != [] && r2 != [] && !IsDigit(r1[0]) && !IsDigit(r2[0])
    requires p + NatToString(x) + r1 == p + NatToString(y) + r2
    ensures x == y && r1 == r2
  {
    assert (p + NatToString(x) + r1)[|p|..] == NatToString(x) + r1;
    assert (p + NatToString(y) + r2)[|p|..] == NatToString(y) + r2;
    NumeralPrefix(x, y, r1, r2);
  }

  /** Different sizes get different guard lines. */
  lemma ConditionInjective(n: nat, n': nat)
    requires Condition(n) == Condition(n')
    ensures n == n'
  {
    NumeralAfter(GuardHead, n, n', GuardTail(2 * n), GuardTail(2 * n'));
  }

  /** Different (stride, size) pairs get different coefficient table names. */
  lemma CoefNameInjective(k: nat, n: nat, k': nat, n': nat)
    requires CoefName(k, n) == CoefName(k', n')
    ensures k == k' && n == n'
  {
    var q := "_";
    NumeralAfter("rearranged_twiddle_stride", k, k', q + NatToString(n), q + NatToString(n'));
    assert NatToString(n) == (q + NatToString(n))[|q|..];
    assert NatToString(n') == (q + NatToString(n'))[|q|..];
    RenderInjective(n, n');
  }

  /** Different (stride, size) pairs get different offset table names. */
  lemma OffsetNameInjective(k: nat, n: nat, k': nat, n': nat)
    requires OffsetName(k, n) == OffsetName(k', n')
    ensures k == k' && n == n'
  {
    var q := "_arr_";
    NumeralAfter("rearranged_twiddle_tab_stride", k, k', q + NatToString(n), q + NatToString(n'));
    assert NatToString(n) == (q + NatToString(n))[|q|..];
    assert NatToString(n') == (q + NatToString(n'))[|q|..];
    RenderInjective(n, n');
  }

  /** No offset table shares its name with a coefficient table. */
  lemma OffsetAndCoefNamesDiffer(k: nat, n: nat, k': nat, n': nat)
    ensures OffsetName(k, n) != CoefName(k', n')
  {
    assert OffsetName(k, n)[19] == 't';
    assert CoefName(k', n')[19] == 's';
  }
}
