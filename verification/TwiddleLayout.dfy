/**
  Layout of the twiddle vector built by `twiddle(n)`: the n cosines and the
  n sines are interleaved into one vector of 2n values, cosine k at even
  position 2k and sine k at odd position 2k+1 (`r[0::2] = c`,
  `r[1::2] = s`). The numeric values themselves are not modelled; the
  element type is generic.
 */
module TwiddleLayout {

  /** The interleaved vector [c0, s0, c1, s1, ...]. */
  function Twiddle<T>(c: seq<T>, s: seq<T>): (r: seq<T>)
    requires |c| == |s|
    ensures |r| == 2 * |c|
    ensures forall k :: 0 <= k < |c| ==> r[2 * k] == c[k] && r[2 * k + 1] == s[k]
  {
    if c == [] then [] else [c[0], s[0]] + Twiddle(c[1..], s[1..])
  }

  /** Cosine `j` sits at position `2j` and sine `j` at position `2j + 1`. */
  lemma TwiddleAt<T>(c: seq<T>, s: seq<T>, j: nat)
    requires |c| == |s| && j < |c|
    ensures 2 * j + 1 < |Twiddle(c, s)|
    ensures Twiddle(c, s)[2 * j] == c[j] && Twiddle(c, s)[2 * j + 1] == s[j]
  {
  }

  /** Python's extended slice `r[start::2]`. */
  function Slice2<T>(r: seq<T>, start: nat): (q: seq<T>)
    decreases |r| - start
  {
    if start >= |r| then [] else [r[start]] + Slice2(r, start + 2)
  }

  lemma {:induction false} Slice2Length<T>(r: seq<T>, start: nat)
    requires start <= |r|
    ensures |Slice2(r, start)| == (|r| - start + 1) / 2
    decreases |r| - start
  {
    if start + 2 <= |r| {
      Slice2Length(r, start + 2);
    }
  }

  lemma {:induction false} Slice2At<T>(r: seq<T>, start: nat, k: nat)
    requires start + 2 * k < |r|
    ensures k < |Slice2(r, start)| && Slice2(r, start)[k] == r[start + 2 * k]
    decreases k
  {
    assert Slice2(r, start) == [r[start]] + Slice2(r, start + 2);
    if k > 0 {
      Slice2At(r, start + 2, k - 1);
    }
  }

  /** Slicing the twiddle vector recovers the cosines (`r[0::2]`) and the sines (`r[1::2]`). */
  lemma TwiddleSlices<T>(c: seq<T>, s: seq<T>)
    requires |c| == |s|
    ensures Slice2(Twiddle(c, s), 0) == c
    ensures Slice2(Twiddle(c, s), 1) == s
  {
    var r := Twiddle(c, s);
    Slice2Length(r, 0);
    forall k | 0 <= k < |c|
      ensures Slice2(r, 0)[k] == c[k]
    {
      Slice2At(r, 0, k);
    }
    if |r| > 0 {
      Slice2Length(r, 1);
      forall k | 0 <= k < |s|
        ensures Slice2(r, 1)[k] == s[k]
      {
        Slice2At(r, 1, k);
      }
    }
  }

  /** A vector of length 2n whose even and odd slices are `c` and `s` is the twiddle vector of `c` and `s`. */
  lemma TwiddleUnique<T>(r: seq<T>, c: seq<T>, s: seq<T>)
    requires |c| == |s| && |r| == 2 * |c|
    requires Slice2(r, 0) == c && Slice2(r, 1) == s
    ensures r == Twiddle(c, s)
  {
    forall j | 0 <= j < |r|
      ensures r[j] == Twiddle(c, s)[j]
    {
      SliceSource(r, c, s, j);
    }
  }

  lemma SliceSource<T>(r: seq<T>, c: seq<T>, s: seq<T>, j: nat)
    requires |c| == |s| && |r| == 2 * |c| && j < |r|
    requires Slice2(r, 0) == c && Slice2(r, 1) == s
    ensures r[j] == Twiddle(c, s)[j]
  {
    var k := j / 2;
    TwiddleAt(c, s, k);
    if j % 2 == 0 {
      Slice2At(r, 0, k);
      assert j == 2 * k;
    } else {
      Slice2At(r, 1, k);
      assert j == 2 * k + 1;
    }
  }
}
