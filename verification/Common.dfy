/** What several parts of the model use: the sector size, error numbers (errno.h on Linux), an optional
    value, the smaller of two numbers, and zero bytes. */
module Common {
  const SECTOR: nat := 512   // BDRV_SECTOR_SIZE

  const EIO := 5
  const EAGAIN := 11
  const EACCES := 13
  const EINVAL := 22
  const ENOTSUP := 95
  const ENOMEDIUM := 123

  datatype Option<T> = None | Some(value: T)

  function Min(a: nat, b: nat): nat { if a < b then a else b }

  function Zeros(n: nat): (z: seq<bv8>)
    ensures |z| == n && forall i :: 0 <= i < n ==> z[i] == 0
  {
    seq(n, _ => 0)
  }
}
