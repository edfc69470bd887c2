/** How the scheduler cuts its task list: `itertools.batched(files, batch_size)`
    and the planned batch count `ceil(total_files / batch_size)` it reports. */
module Batching {

  /** The batches laid end to end. */
  function Concat<T>(batches: seq<seq<T>>): seq<T>
  {
    if |batches| == 0 then [] else batches[0] + Concat(batches[1..])
  }

  /** Concat read from the back: the last batch comes last. */
  lemma {:induction false} ConcatSnoc<T>(batches: seq<seq<T>>)
    requires |batches| > 0
    ensures Concat(batches) == Concat(batches[..|batches| - 1]) + batches[|batches| - 1]
  {
    if |batches| > 1 {
      ConcatSnoc(batches[1..]);
      assert batches[1..][..|batches[1..]| - 1] == batches[..|batches| - 1][1..];
    } else {
      assert Concat(batches[..0]) == [];
      assert Concat(batches[1..]) == [];
    }
  }

  /** An element of a batch is an element of the concatenation. */
  lemma {:induction false} ConcatHas<T>(batches: seq<seq<T>>, k: nat, x: T)
    requires k < |batches| && x in batches[k]
    ensures x in Concat(batches)
  {
    if k > 0 {
      ConcatHas(batches[1..], k - 1, x);
    }
  }

  /** `itertools.batched(s, n)`: consecutive chunks of `n`, only the last may be
      shorter, and none is empty. */
  function Batched<T>(s: seq<T>, n: nat): (r: seq<seq<T>>)
    requires n >= 1
    ensures Concat(r) == s
    ensures forall i :: 0 <= i < |r| ==> 1 <= |r[i]| <= n
    ensures forall i :: 0 <= i < |r| - 1 ==> |r[i]| == n
    ensures |r| * n >= |s| > (|r| - 1) * n
    decreases |s|
  {
    if |s| == 0 then []
    else if |s| <= n then [s]
    else
      var rest := Batched(s[n..], n);
      assert s == s[..n] + s[n..];
      [s[..n]] + rest
  }

  /** `ceil(total_files / batch_size)`, the batch count the scheduler announces. */
  function PlannedBatchCount(totalFiles: nat, batchSize: nat): (c: nat)
    requires batchSize >= 1
    ensures c * batchSize >= totalFiles
    ensures totalFiles > 0 ==> (c - 1) * batchSize < totalFiles
    ensures totalFiles == 0 ==> c == 0
  {
    (totalFiles + batchSize - 1) / batchSize
  }

  /** The number of batches is the one announced when the announced total is
      the number of tasks, and at most that when the codec filter dropped
      some of the announced files before batching. */
  lemma BatchCountWithinPlan<T>(s: seq<T>, totalFiles: nat, n: nat)
    requires n >= 1 && |s| <= totalFiles
    ensures |Batched(s, n)| <= PlannedBatchCount(totalFiles, n)
    ensures |s| == totalFiles ==> |Batched(s, n)| == PlannedBatchCount(totalFiles, n)
  {
    var b, c := |Batched(s, n)|, PlannedBatchCount(totalFiles, n);
    if b > c {
      // (b - 1) * n < |s| <= total <= c * n, so b - 1 < c
      assert (b - 1) * n >= c * n by {
        assert b - 1 >= c;
        MulMonotone(c, b - 1, n);
      }
    }
    if |s| == totalFiles && b < c {
      assert (c - 1) * n >= b * n by {
        MulMonotone(b, c - 1, n);
      }
    }
  }

  lemma MulMonotone(x: int, y: int, n: nat)
    requires x <= y
    ensures x * n <= y * n
  {
  }
}
