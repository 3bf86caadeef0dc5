/** What several of the models share. */
module Common {

  datatype Option<+T> = None | Some(value: T)

  const UINT32 := 0x1_0000_0000

  /** The most bytes newlog puts into one compressed file. */
  const MAX_GZIP_FILE_SIZE := 50000

  /** Multiplication is monotone. */
  lemma {:induction false} MulMono(a: nat, x: nat, y: nat)
    requires x <= y
    ensures a * x <= a * y
  {
    if x < y {
      MulMono(a, x, y - 1);
      assert a * y == a * (y - 1) + a;
    }
  }
}
