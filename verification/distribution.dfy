/**
  The balanced, contiguous partition of a batch over the agent roster:
  with n rows and k agents, the agent at roster position i receives
  n / k + 1 rows when i < n % k and n / k rows otherwise, and the rows
  are handed out as consecutive blocks in input order.
 */
module Distribution {

  import opened ListTypes

  function Min(a: nat, b: nat): nat
  {
    if a <= b then a else b
  }

  function Sum(s: seq<nat>): nat
  {
    if |s| == 0 then 0 else s[0] + Sum(s[1..])
  }

  /** The blocks joined in order. */
  function Flatten<T>(blocks: seq<seq<T>>): seq<T>
  {
    if |blocks| == 0 then [] else blocks[0] + Flatten(blocks[1..])
  }

  lemma {:induction false} SumAppend(a: seq<nat>, b: seq<nat>)
    ensures Sum(a + b) == Sum(a) + Sum(b)
  {
    if |a| > 0 {
      assert (a + b)[1..] == a[1..] + b;
      SumAppend(a[1..], b);
    } else {
      assert a + b == b;
    }
  }

  lemma {:induction false} FlattenAppend<T>(a: seq<seq<T>>, b: seq<seq<T>>)
    ensures Flatten(a + b) == Flatten(a) + Flatten(b)
  {
    if |a| > 0 {
      assert (a + b)[1..] == a[1..] + b;
      FlattenAppend(a[1..], b);
    } else {
      assert a + b == b;
    }
  }

  /** The number of rows the agent at roster position `i` receives. */
  function Share(n: nat, k: nat, i: nat): nat
    requires k > 0
  {
    if i < n % k then n / k + 1 else n / k
  }

  function Shares(n: nat, k: nat): seq<nat>
    requires k > 0
  {
    seq(k, i requires 0 <= i < k => Share(n, k, i))
  }

  /** Where the block of the agent at roster position `i` starts. */
  function Offset(n: nat, k: nat, i: nat): nat
    requires k > 0 && i <= k
  {
    Sum(Shares(n, k)[..i])
  }

  lemma OffsetStep(n: nat, k: nat, i: nat)
    requires k > 0 && i < k
    ensures Offset(n, k, i + 1) == Offset(n, k, i) + Share(n, k, i)
  {
    var s := Shares(n, k);
    assert s[..i + 1] == s[..i] + [s[i]];
    SumAppend(s[..i], [s[i]]);
  }

  /** The start of block `i` in closed form: i * (n / k) plus one for each earlier agent that got an extra row. */
  lemma {:induction false} OffsetClosedForm(n: nat, k: nat, i: nat)
    requires k > 0 && i <= k
    ensures Offset(n, k, i) == i * (n / k) + Min(i, n % k)
  {
    if i > 0 {
      OffsetClosedForm(n, k, i - 1);
      OffsetStep(n, k, i - 1);
      assert (i - 1) * (n / k) + n / k == i * (n / k);
    }
  }

  /** The shares add up to the batch size. */
  lemma SharesSum(n: nat, k: nat)
    requires k > 0
    ensures Sum(Shares(n, k)) == n
  {
    OffsetClosedForm(n, k, k);
    assert Shares(n, k)[..k] == Shares(n, k);
  }

  /** The last block ends at the end of the batch. */
  lemma OffsetEnd(n: nat, k: nat)
    requires k > 0
    ensures Offset(n, k, k) == n
  {
    SharesSum(n, k);
    assert Shares(n, k)[..k] == Shares(n, k);
  }

  /** Cuts `xs` into consecutive blocks of the given sizes. */
  function Split<T>(xs: seq<T>, sizes: seq<nat>): (blocks: seq<seq<T>>)
    requires Sum(sizes) == |xs|
    ensures |blocks| == |sizes|
    ensures forall i :: 0 <= i < |sizes| ==> |blocks[i]| == sizes[i]
  {
    if |sizes| == 0 then []
    else [xs[..sizes[0]]] + Split(xs[sizes[0]..], sizes[1..])
  }

  /** Joining the blocks of a split gives back the input. */
  lemma {:induction false} SplitFlatten<T>(xs: seq<T>, sizes: seq<nat>)
    requires Sum(sizes) == |xs|
    ensures Flatten(Split(xs, sizes)) == xs
  {
    if |sizes| > 0 {
      var blocks := Split(xs, sizes);
      SplitFlatten(xs[sizes[0]..], sizes[1..]);
      assert blocks[1..] == Split(xs[sizes[0]..], sizes[1..]);
      assert xs == xs[..sizes[0]] + xs[sizes[0]..];
    }
  }

  lemma SumPrefixCons(sizes: seq<nat>, i: nat)
    requires 0 < i <= |sizes|
    ensures Sum(sizes[..i]) == sizes[0] + Sum(sizes[1..][..i - 1])
  {
    assert sizes[..i][1..] == sizes[1..][..i - 1];
  }

  lemma SliceShift<T>(xs: seq<T>, h: nat, lo: nat, hi: nat)
    requires h <= |xs| && lo <= hi <= |xs| - h
    ensures xs[h..][lo..hi] == xs[h + lo..h + hi]
  {
  }

  /** Block `i` of a split is the slice starting after the first `i` sizes. */
  lemma {:induction false} SplitBlock<T>(xs: seq<T>, sizes: seq<nat>, i: nat)
    requires Sum(sizes) == |xs| && i < |sizes|
    ensures Sum(sizes[..i]) + sizes[i] <= |xs|
    ensures Split(xs, sizes)[i] == xs[Sum(sizes[..i])..Sum(sizes[..i]) + sizes[i]]
  {
    if i > 0 {
      var h, rest := sizes[0], sizes[1..];
      SplitBlock(xs[h..], rest, i - 1);
      SumPrefixCons(sizes, i);
      var pre := Sum(rest[..i - 1]);
      SliceShift(xs, h, pre, pre + rest[i - 1]);
    }
  }

  /**
    The distribution of a batch over `k` agents, one block per roster
    position: sizes follow the remainder rule, any two differ by at most
    one, and joined in roster order they give back the batch.
   */
  function Partition<T>(xs: seq<T>, k: nat): (blocks: seq<seq<T>>)
    requires k > 0
    ensures |blocks| == k
    ensures forall i :: 0 <= i < k ==> |blocks[i]| == if i < |xs| % k then |xs| / k + 1 else |xs| / k
    ensures forall i, j :: 0 <= i < k && 0 <= j < k ==> |blocks[i]| <= |blocks[j]| + 1
    ensures Flatten(blocks) == xs
  {
    SharesSum(|xs|, k);
    SplitFlatten(xs, Shares(|xs|, k));
    Split(xs, Shares(|xs|, k))
  }

  /** Block `i` is the slice between the offsets of agents `i` and `i + 1`. */
  lemma PartitionBlock<T>(xs: seq<T>, k: nat, i: nat)
    requires k > 0 && i < k
    ensures Offset(|xs|, k, i) <= Offset(|xs|, k, i + 1) <= |xs|
    ensures Partition(xs, k)[i] == xs[Offset(|xs|, k, i)..Offset(|xs|, k, i + 1)]
  {
    SharesSum(|xs|, k);
    SplitBlock(xs, Shares(|xs|, k), i);
    OffsetStep(|xs|, k, i);
  }

  /**
    Contiguity: the agent at position `i` receives exactly the rows from
    index i * (n / k) + min(i, n % k) on, in input order.
   */
  lemma PartitionContiguous<T>(xs: seq<T>, k: nat, i: nat)
    requires k > 0 && i < k
    ensures var start := i * (|xs| / k) + Min(i, |xs| % k);
      start + |Partition(xs, k)[i]| <= |xs| &&
      Partition(xs, k)[i] == xs[start..start + |Partition(xs, k)[i]|]
  {
    PartitionBlock(xs, k, i);
    OffsetStep(|xs|, k, i);
    OffsetClosedForm(|xs|, k, i);
  }

  /** Ten rows over three agents: four, three and three, in order. */
  lemma TenRowsThreeAgents<T>(xs: seq<T>)
    requires |xs| == 10
    ensures Partition(xs, 3) == [xs[..4], xs[4..7], xs[7..]]
  {
    var p := Partition(xs, 3);
    assert 10 / 3 == 3 && 10 % 3 == 1;
    assert |p[0]| == 4 && |p[1]| == 3 && |p[2]| == 3;
    PartitionContiguous(xs, 3, 0);
    PartitionContiguous(xs, 3, 1);
    PartitionContiguous(xs, 3, 2);
    assert p[0] == xs[..4];
    assert p[1] == xs[4..7];
    assert p[2] == xs[7..10] == xs[7..];
    assert p == [p[0], p[1], p[2]];
  }

  lemma SliceSnoc<T>(xs: seq<T>, lo: nat, hi: nat)
    requires lo <= hi < |xs|
    ensures xs[lo..hi + 1] == xs[lo..hi] + [xs[hi]]
  {
  }

  /**
    The distribution loop of the upload handler: agents are visited in
    roster order, each takes its share from a running index, and the
    index is checked against the batch length before every take.
    `consumed` is the final value of that index.
   */
  method Distribute<T>(data: seq<T>, agents: seq<Agent>) returns (distribution: seq<seq<T>>, consumed: nat)
    requires |agents| > 0
    ensures distribution == Partition(data, |agents|)
    ensures consumed == |data|
  {
    var k := |agents|;
    var itemsPerAgent := |data| / k;
    var remainder := |data| % k;
    var currentIndex := 0;
    distribution := seq(k, _ => []);
    ghost var blocks := Partition(data, k);
    var i := 0;
    while i < k
      invariant 0 <= i <= k
      invariant |distribution| == k
      invariant currentIndex == Offset(|data|, k, i)
      invariant forall a :: 0 <= a < i ==> distribution[a] == blocks[a]
      invariant forall a :: i <= a < k ==> distribution[a] == []
    {
      var itemsToAssign := if i < remainder then itemsPerAgent + 1 else itemsPerAgent;
      PartitionBlock(data, k, i);
      OffsetStep(|data|, k, i);
      ghost var start := currentIndex;
      ghost var before := distribution;
      var j := 0;
      while j < itemsToAssign
        invariant 0 <= j <= itemsToAssign
        invariant start + itemsToAssign <= |data|
        invariant currentIndex == start + j
        invariant |distribution| == k
        invariant distribution[i] == data[start..currentIndex]
        invariant forall a :: 0 <= a < k && a != i ==> distribution[a] == before[a]
      {
        if currentIndex < |data| {
          SliceSnoc(data, start, currentIndex);
          distribution := distribution[i := distribution[i] + [data[currentIndex]]];
          currentIndex := currentIndex + 1;
        }
        j := j + 1;
      }
      assert distribution[i] == blocks[i];
      i := i + 1;
    }
    OffsetEnd(|data|, k);
    assert distribution == blocks;
    consumed := currentIndex;
  }
}
