/** What several parts of the model share: optional values, sizes of finite sets, and the
    kernel's parameters. */
module Common {
  datatype Option<+T> = None | Some(value: T)

  const MAXOPBLOCKS: nat := 10              // blocks one file system operation may log
  const LOGSIZE: nat := 3 * MAXOPBLOCKS     // data blocks in the on-disk log
  const NBUF: nat := 3 * MAXOPBLOCKS        // buffers in the block cache

  /** The numbers below n, counted. */
  function Below(n: nat): (s: set<nat>)
    ensures |s| == n && forall i: nat :: i in s <==> i < n
  {
    if n == 0 then {} else Below(n - 1) + {n - 1}
  }

  lemma SubsetSize<T>(a: set<T>, b: set<T>)
    requires a <= b
    ensures |a| <= |b|
  {
    assert b == a + (b - a);
  }
}
