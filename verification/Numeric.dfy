/** The reductions of `axon-features/src/numeric.rs`, in NumPy's summation order.

    The order is a tree: `SumTree` says which additions happen between which partial sums. The
    methods transcribe the loops and are proved to perform exactly the additions of
    `PairwiseTree`; what the order is worth (nothing dropped or counted twice, logarithmic depth,
    the error that follows from it) is proved about the tree.
 */
module Numeric {
  import opened Float

  const BLOCK_SIZE: nat := 128

  datatype SumTree<+F> = Zero | Leaf(v: F) | Add(l: SumTree<F>, r: SumTree<F>)

  function Eval<F>(fpu: Fpu<F>, t: SumTree<F>): F {
    match t
    case Zero => fpu.Zero()
    case Leaf(v) => v
    case Add(l, r) => fpu.add(Eval(fpu, l), Eval(fpu, r))
  }

  /** The most additions any one element passes through. */
  function Depth<F>(t: SumTree<F>): nat {
    match t
    case Zero => 0
    case Leaf(_) => 0
    case Add(l, r) => 1 + Max(Depth(l), Depth(r))
  }

  function Max(a: nat, b: nat): nat { if a < b then b else a }

  // ---------------------------------------------------------------- the order

  /** The plain loop `res += v`, started from the partial sum `t`. */
  function Chain<F>(t: SumTree<F>, xs: seq<F>): SumTree<F>
    decreases |xs|
  {
    if xs == [] then t else Add(Chain(t, xs[..|xs| - 1]), Leaf(xs[|xs| - 1]))
  }

  /** Accumulator `k` after `blocks` strides of eight: seeded by an element, not by zero. */
  function Lane<F>(xs: seq<F>, k: nat, blocks: nat): SumTree<F>
    requires k < 8 && 1 <= blocks && 8 * blocks <= |xs|
  {
    if blocks == 1 then Leaf(xs[k])
    else Add(Lane(xs, k, blocks - 1), Leaf(xs[8 * (blocks - 1) + k]))
  }

  /** The fixed combining tree of the eight accumulators. */
  function Combine<F>(r: seq<SumTree<F>>): SumTree<F>
    requires |r| == 8
  {
    Add(Add(Add(r[0], r[1]), Add(r[2], r[3])), Add(Add(r[4], r[5]), Add(r[6], r[7])))
  }

  function Lanes<F>(xs: seq<F>, blocks: nat): (r: seq<SumTree<F>>)
    requires 1 <= blocks && 8 * blocks <= |xs|
    ensures |r| == 8
  {
    seq(8, k requires 0 <= k < 8 => Lane(xs, k, blocks))
  }

  function Split(n: nat): (m: nat)
    requires BLOCK_SIZE < n
    ensures 0 < m < n && m % 8 == 0 && n / 2 - 8 < m <= n / 2
  {
    n / 2 - n / 2 % 8
  }

  function InnerTree<F>(xs: seq<F>): SumTree<F>
    decreases |xs|
  {
    if |xs| < 8 then Chain(Zero, xs)
    else if |xs| <= BLOCK_SIZE then
      var b := |xs| / 8;
      Chain(Combine(Lanes(xs, b)), xs[8 * b..])
    else
      var m := Split(|xs|);
      Add(InnerTree(xs[..m]), InnerTree(xs[m..]))
  }

  /** `np.sum` seeds its accumulator with the identity once, outside the recursion. */
  function PairwiseTree<F>(xs: seq<F>): SumTree<F> {
    Add(Zero, InnerTree(xs))
  }

  function PairwiseOf<F>(fpu: Fpu<F>, xs: seq<F>): F {
    Eval(fpu, PairwiseTree(xs))
  }

  function MeanOf<F>(fpu: Fpu<F>, xs: seq<F>): F {
    if xs == [] then fpu.nan else fpu.div(PairwiseOf(fpu, xs), fpu.ofNat(|xs|))
  }

  function Squares<F>(fpu: Fpu<F>, xs: seq<F>, mu: F): seq<F> {
    seq(|xs|, i requires 0 <= i < |xs| => var d := fpu.sub(xs[i], mu); fpu.mul(d, d))
  }

  /** Two passes: the whole window's mean, then the squared deviations from it. */
  function StdOf<F>(fpu: Fpu<F>, xs: seq<F>, ddof: nat): F {
    if |xs| <= ddof then fpu.nan
    else
      var mu := fpu.div(PairwiseOf(fpu, xs), fpu.ofNat(|xs|));
      fpu.sqrt(fpu.div(PairwiseOf(fpu, Squares(fpu, xs, mu)), fpu.ofNat(|xs| - ddof)))
  }

  // ---------------------------------------------------------------- the loops

  method PairwiseInner<F>(fpu: Fpu<F>, xs: seq<F>) returns (res: F)
    ensures res == Eval(fpu, InnerTree(xs))
    decreases |xs|
  {
    hide InnerTree, Eval, Chain;
    var n := |xs|;
    if n < 8 {
      ShortTree(xs);
      res := AddAll(fpu, xs);
      return;
    }
    if n <= BLOCK_SIZE {
      res := Unrolled(fpu, xs);
      return;
    }
    var n2 := n / 2;
    n2 := n2 - n2 % 8;
    var left := PairwiseInner(fpu, xs[..n2]);
    var right := PairwiseInner(fpu, xs[n2..]);
    SplitEval(fpu, xs);
    res := fpu.add(left, right);
  }

  lemma ShortTree<F>(xs: seq<F>)
    requires |xs| < 8
    ensures InnerTree(xs) == Chain(Zero, xs)
  {
  }

  lemma SplitEval<F>(fpu: Fpu<F>, xs: seq<F>)
    requires BLOCK_SIZE < |xs|
    ensures var m := Split(|xs|);
      Eval(fpu, InnerTree(xs)) == fpu.add(Eval(fpu, InnerTree(xs[..m])), Eval(fpu, InnerTree(xs[m..])))
  {
    var m := Split(|xs|);
    assert InnerTree(xs) == Add(InnerTree(xs[..m]), InnerTree(xs[m..]));
  }

  method AddAll<F>(fpu: Fpu<F>, xs: seq<F>) returns (res: F)
    ensures res == Eval(fpu, Chain(Zero, xs))
  {
    res := fpu.Zero();
    assert xs[..0] == [];
    for i := 0 to |xs|
      invariant res == Eval(fpu, Chain(Zero, xs[..i]))
    {
      assert xs[..i + 1][..i] == xs[..i];
      res := fpu.add(res, xs[i]);
    }
    assert xs[..|xs|] == xs;
  }

  method Unrolled<F>(fpu: Fpu<F>, xs: seq<F>) returns (res: F)
    requires 8 <= |xs| <= BLOCK_SIZE
    ensures res == Eval(fpu, InnerTree(xs))
  {
    hide InnerTree, Lane, Chain, Combine, Eval;
    BlockTree(xs);
    var r := Accumulate(fpu, xs);
    ghost var b := |xs| / 8;
    res := CombineAll(fpu, xs, b, r);
    res := AddTail(fpu, xs, |xs| - |xs| % 8, Combine(Lanes(xs, b)), res);
  }

  method CombineAll<F>(fpu: Fpu<F>, xs: seq<F>, ghost blocks: nat, r: array<F>) returns (res: F)
    requires r.Length == 8 && 1 <= blocks && 8 * blocks <= |xs|
    requires forall k :: 0 <= k < 8 ==> r[k] == Eval(fpu, Lane(xs, k, blocks))
    ensures res == Eval(fpu, Combine(Lanes(xs, blocks)))
  {
    hide Lane, Eval, Combine;
    res := fpu.add(fpu.add(fpu.add(r[0], r[1]), fpu.add(r[2], r[3])),
                   fpu.add(fpu.add(r[4], r[5]), fpu.add(r[6], r[7])));
    CombineEval(fpu, xs, blocks, r[..]);
  }

  lemma BlockTree<F>(xs: seq<F>)
    requires 8 <= |xs| <= BLOCK_SIZE
    ensures var b := |xs| / 8;
      8 * b == |xs| - |xs| % 8 && InnerTree(xs) == Chain(Combine(Lanes(xs, b)), xs[8 * b..])
  {
  }

  method Accumulate<F>(fpu: Fpu<F>, xs: seq<F>) returns (r: array<F>)
    requires 8 <= |xs|
    ensures fresh(r) && r.Length == 8
    ensures forall k :: 0 <= k < 8 ==> r[k] == Eval(fpu, Lane(xs, k, |xs| / 8))
  {
    hide Lane, Eval;
    r := new F[8](k requires 0 <= k < 8 => xs[k]);
    FirstValues(fpu, xs);
    var i := 8;
    var unrolledEnd := |xs| - |xs| % 8;
    while i < unrolledEnd
      invariant 8 <= i <= unrolledEnd && i % 8 == 0
      invariant forall k :: 0 <= k < 8 ==> r[k] == Eval(fpu, Lane(xs, k, i / 8))
    {
      Stride(fpu, xs, i, r);
      i := i + 8;
    }
  }

  lemma FirstValues<F>(fpu: Fpu<F>, xs: seq<F>)
    requires 8 <= |xs|
    ensures forall k :: 0 <= k < 8 ==> Eval(fpu, Lane(xs, k, 1)) == xs[k]
  {
    assert forall k :: 0 <= k < 8 ==> Lane(xs, k, 1) == Leaf(xs[k]);
  }

  lemma LaneGrows<F>(fpu: Fpu<F>, xs: seq<F>, k: nat, blocks: nat)
    requires k < 8 && 1 <= blocks && 8 * (blocks + 1) <= |xs|
    ensures Eval(fpu, Lane(xs, k, blocks + 1)) == fpu.add(Eval(fpu, Lane(xs, k, blocks)), xs[8 * blocks + k])
  {
    assert Lane(xs, k, blocks + 1) == Add(Lane(xs, k, blocks), Leaf(xs[8 * blocks + k]));
  }

  method Stride<F>(fpu: Fpu<F>, xs: seq<F>, i: nat, r: array<F>)
    requires r.Length == 8 && 8 <= i && i % 8 == 0 && i + 8 <= |xs|
    requires forall k :: 0 <= k < 8 ==> r[k] == Eval(fpu, Lane(xs, k, i / 8))
    modifies r
    ensures forall k :: 0 <= k < 8 ==> r[k] == Eval(fpu, Lane(xs, k, i / 8 + 1))
  {
    hide Lane, Eval;
    ghost var blocks := i / 8;
    for k := 0 to 8
      invariant forall j :: 0 <= j < k ==> r[j] == Eval(fpu, Lane(xs, j, blocks + 1))
      invariant forall j :: k <= j < 8 ==> r[j] == Eval(fpu, Lane(xs, j, blocks))
    {
      LaneGrows(fpu, xs, k, blocks);
      r[k] := fpu.add(r[k], xs[i + k]);
    }
  }

  lemma CombineEval<F>(fpu: Fpu<F>, xs: seq<F>, blocks: nat, r: seq<F>)
    requires |r| == 8 && 1 <= blocks && 8 * blocks <= |xs|
    requires forall k :: 0 <= k < 8 ==> r[k] == Eval(fpu, Lane(xs, k, blocks))
    ensures Eval(fpu, Combine(Lanes(xs, blocks)))
         == fpu.add(fpu.add(fpu.add(r[0], r[1]), fpu.add(r[2], r[3])),
                    fpu.add(fpu.add(r[4], r[5]), fpu.add(r[6], r[7])))
  {
    var t := Lanes(xs, blocks);
    assert forall k :: 0 <= k < 8 ==> Eval(fpu, t[k]) == r[k];
    assert Eval(fpu, Add(Add(t[0], t[1]), Add(t[2], t[3])))
        == fpu.add(fpu.add(r[0], r[1]), fpu.add(r[2], r[3]));
    assert Eval(fpu, Add(Add(t[4], t[5]), Add(t[6], t[7])))
        == fpu.add(fpu.add(r[4], r[5]), fpu.add(r[6], r[7]));
  }

  method AddTail<F>(fpu: Fpu<F>, xs: seq<F>, start: nat, ghost t: SumTree<F>, head: F) returns (res: F)
    requires start <= |xs| && head == Eval(fpu, t)
    ensures res == Eval(fpu, Chain(t, xs[start..]))
  {
    ghost var tail := xs[start..];
    res := head;
    var i := start;
    while i < |xs|
      invariant start <= i <= |xs|
      invariant res == Eval(fpu, Chain(t, tail[..i - start]))
    {
      assert tail[..i + 1 - start][..i - start] == tail[..i - start];
      res := fpu.add(res, xs[i]);
      i := i + 1;
    }
    assert tail[..|xs| - start] == tail;
  }

  method PairwiseSum<F>(fpu: Fpu<F>, xs: seq<F>) returns (res: F)
    ensures res == PairwiseOf(fpu, xs)
  {
    var inner := PairwiseInner(fpu, xs);
    res := fpu.add(fpu.Zero(), inner);
    assert Eval(fpu, SumTree<F>.Zero) == fpu.Zero();
  }

  method Mean<F>(fpu: Fpu<F>, xs: seq<F>) returns (res: F)
    ensures res == MeanOf(fpu, xs)
  {
    if |xs| == 0 { return fpu.nan; }
    var total := PairwiseSum(fpu, xs);
    res := fpu.div(total, fpu.ofNat(|xs|));
  }

  /** The mean is handed down and the squares go through the caller's scratch buffer. */
  method StdIn<F>(fpu: Fpu<F>, xs: seq<F>, ddof: nat, mu: F, scratch: array<F>) returns (res: F)
    requires |xs| <= scratch.Length
    requires xs != [] ==> mu == fpu.div(PairwiseOf(fpu, xs), fpu.ofNat(|xs|))
    modifies scratch
    ensures res == StdOf(fpu, xs, ddof)
    ensures scratch[|xs|..] == old(scratch[|xs|..])
  {
    var n := |xs|;
    if n == 0 || n <= ddof { return fpu.nan; }
    for i := 0 to n
      invariant scratch[..i] == Squares(fpu, xs, mu)[..i]
      invariant scratch[n..] == old(scratch[n..])
    {
      var d := fpu.sub(xs[i], mu);
      scratch[i] := fpu.mul(d, d);
    }
    assert scratch[..n] == Squares(fpu, xs, mu);
    var total := PairwiseSum(fpu, scratch[..n]);
    res := fpu.sqrt(fpu.div(total, fpu.ofNat(n - ddof)));
  }

  // ---------------------------------------------------------------- every element exactly once

  function TreeTotal<F>(t: SumTree<F>, w: F -> real): real {
    match t
    case Zero => 0.0
    case Leaf(v) => w(v)
    case Add(l, r) => TreeTotal(l, w) + TreeTotal(r, w)
  }

  /** The plain left-to-right sum of the weights. */
  function SeqTotal<F>(xs: seq<F>, w: F -> real): real {
    if xs == [] then 0.0 else SeqTotal(xs[..|xs| - 1], w) + w(xs[|xs| - 1])
  }

  lemma SeqTotalConcat<F>(a: seq<F>, b: seq<F>, w: F -> real)
    ensures SeqTotal(a + b, w) == SeqTotal(a, w) + SeqTotal(b, w)
    decreases |b|
  {
    if b == [] {
      assert a + b == a;
    } else {
      SeqTotalConcat(a, b[..|b| - 1], w);
      assert (a + b)[..|a + b| - 1] == a + b[..|b| - 1];
    }
  }

  lemma ChainTotal<F>(t: SumTree<F>, xs: seq<F>, w: F -> real)
    ensures TreeTotal(Chain(t, xs), w) == TreeTotal(t, w) + SeqTotal(xs, w)
    decreases |xs|
  {
    if xs != [] { ChainTotal(t, xs[..|xs| - 1], w); }
  }

  lemma EightTotal<F>(xs: seq<F>, i: nat, w: F -> real)
    requires i + 8 <= |xs|
    ensures SeqTotal(xs[..i + 8], w) == SeqTotal(xs[..i], w)
      + w(xs[i]) + w(xs[i + 1]) + w(xs[i + 2]) + w(xs[i + 3])
      + w(xs[i + 4]) + w(xs[i + 5]) + w(xs[i + 6]) + w(xs[i + 7])
  {
    forall j | i <= j < i + 8
      ensures SeqTotal(xs[..j + 1], w) == SeqTotal(xs[..j], w) + w(xs[j])
    {
      assert xs[..j + 1][..j] == xs[..j];
    }
  }

  lemma CombineTotal<F>(r: seq<SumTree<F>>, w: F -> real)
    requires |r| == 8
    ensures TreeTotal(Combine(r), w)
         == TreeTotal(r[0], w) + TreeTotal(r[1], w) + TreeTotal(r[2], w) + TreeTotal(r[3], w)
          + TreeTotal(r[4], w) + TreeTotal(r[5], w) + TreeTotal(r[6], w) + TreeTotal(r[7], w)
  {
    var a, b, c, d := Add(r[0], r[1]), Add(r[2], r[3]), Add(r[4], r[5]), Add(r[6], r[7]);
    assert TreeTotal(Add(a, b), w) == TreeTotal(a, w) + TreeTotal(b, w);
    assert TreeTotal(Add(c, d), w) == TreeTotal(c, w) + TreeTotal(d, w);
  }

  lemma LaneTotalGrows<F>(xs: seq<F>, k: nat, blocks: nat, w: F -> real)
    requires k < 8 && 1 <= blocks && 8 * (blocks + 1) <= |xs|
    ensures TreeTotal(Lane(xs, k, blocks + 1), w) == TreeTotal(Lane(xs, k, blocks), w) + w(xs[8 * blocks + k])
  {
    assert Lane(xs, k, blocks + 1) == Add(Lane(xs, k, blocks), Leaf(xs[8 * blocks + k]));
  }

  lemma LanesStep<F>(xs: seq<F>, blocks: nat, w: F -> real)
    requires 1 <= blocks && 8 * (blocks + 1) <= |xs|
    ensures TreeTotal(Combine(Lanes(xs, blocks + 1)), w) == TreeTotal(Combine(Lanes(xs, blocks)), w)
      + SeqTotal(xs[..8 * blocks + 8], w) - SeqTotal(xs[..8 * blocks], w)
  {
    hide TreeTotal, SeqTotal, Combine, Lane;
    EightTotal(xs, 8 * blocks, w);
    var before, after := Lanes(xs, blocks), Lanes(xs, blocks + 1);
    forall k | 0 <= k < 8
      ensures TreeTotal(after[k], w) == TreeTotal(before[k], w) + w(xs[8 * blocks + k])
    {
      LaneTotalGrows(xs, k, blocks, w);
    }
    CombineTotal(after, w);
    CombineTotal(before, w);
  }

  lemma FirstLanes<F>(xs: seq<F>, w: F -> real)
    requires 8 <= |xs|
    ensures TreeTotal(Combine(Lanes(xs, 1)), w) == SeqTotal(xs[..8], w)
  {
    EightTotal(xs, 0, w);
    assert SeqTotal(xs[..0], w) == 0.0;
    var r := Lanes(xs, 1);
    assert forall k :: 0 <= k < 8 ==> TreeTotal(r[k], w) == w(xs[k]);
    CombineTotal(r, w);
  }

  lemma LanesTotal<F>(xs: seq<F>, blocks: nat, w: F -> real)
    requires 1 <= blocks && 8 * blocks <= |xs|
    ensures TreeTotal(Combine(Lanes(xs, blocks)), w) == SeqTotal(xs[..8 * blocks], w)
  {
    if blocks == 1 {
      FirstLanes(xs, w);
    } else {
      LanesTotal(xs, blocks - 1, w);
      LanesStep(xs, blocks - 1, w);
    }
  }

  /** For every weighting of the elements the tree and the plain loop total the same. */
  lemma {:induction false} EveryElementWeighedOnce<F>(xs: seq<F>, w: F -> real)
    ensures TreeTotal(InnerTree(xs), w) == SeqTotal(xs, w)
    ensures TreeTotal(PairwiseTree(xs), w) == SeqTotal(xs, w)
    decreases |xs|
  {
    if |xs| < 8 {
      ChainTotal(Zero, xs, w);
    } else if |xs| <= BLOCK_SIZE {
      var b := |xs| / 8;
      LanesTotal(xs, b, w);
      ChainTotal(Combine(Lanes(xs, b)), xs[8 * b..], w);
      SeqTotalConcat(xs[..8 * b], xs[8 * b..], w);
      assert xs[..8 * b] + xs[8 * b..] == xs;
    } else {
      var m := Split(|xs|);
      EveryElementWeighedOnce(xs[..m], w);
      EveryElementWeighedOnce(xs[m..], w);
      SeqTotalConcat(xs[..m], xs[m..], w);
      assert xs[..m] + xs[m..] == xs;
    }
  }

  function Leaves<F(==)>(t: SumTree<F>): multiset<F> {
    match t
    case Zero => multiset{}
    case Leaf(v) => multiset{v}
    case Add(l, r) => Leaves(l) + Leaves(r)
  }

  ghost predicate CountsOnly<F(!new)>(w: F -> real, v: F) {
    forall x :: w(x) == if x == v then 1.0 else 0.0
  }

  lemma {:induction false} LeavesCounted<F(!new)>(t: SumTree<F>, w: F -> real, v: F)
    requires CountsOnly(w, v)
    ensures TreeTotal(t, w) == Leaves(t)[v] as real
  {
    if t.Add? {
      LeavesCounted(t.l, w, v);
      LeavesCounted(t.r, w, v);
    }
  }

  lemma SeqCounted<F(!new)>(xs: seq<F>, w: F -> real, v: F)
    requires CountsOnly(w, v)
    ensures SeqTotal(xs, w) == multiset(xs)[v] as real
    decreases |xs|
  {
    if xs != [] {
      SeqCounted(xs[..|xs| - 1], w, v);
      assert xs[..|xs| - 1] + [xs[|xs| - 1]] == xs;
    }
  }

  lemma WeighedOccurrences<F(!new)>(xs: seq<F>, w: F -> real, v: F)
    requires CountsOnly(w, v)
    ensures Leaves(PairwiseTree(xs))[v] == multiset(xs)[v]
  {
    EveryElementWeighedOnce(xs, w);
    LeavesCounted(PairwiseTree(xs), w, v);
    SeqCounted(xs, w, v);
  }

  lemma OccursAsOften<F(!new)>(xs: seq<F>, v: F)
    ensures Leaves(PairwiseTree(xs))[v] == multiset(xs)[v]
  {
    WeighedOccurrences(xs, x => if x == v then 1.0 else 0.0, v);
  }

  /** The additions consume each element of the window exactly as often as it occurs in it. */
  lemma LeavesAreTheWindow<F(!new)>(xs: seq<F>)
    ensures Leaves(PairwiseTree(xs)) == multiset(xs)
  {
    forall v: F
      ensures Leaves(PairwiseTree(xs))[v] == multiset(xs)[v]
    {
      OccursAsOften(xs, v);
    }
  }
}
