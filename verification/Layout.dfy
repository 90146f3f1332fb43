/** Address arithmetic of the 32-bit kernel: page rounding with the wrap-around of
    `uintptr_t`, and the bounds of the user half of the address space. */
module Layout {
  const PGSIZE: nat := 4096
  const WORD: nat := 0x1_0000_0000
  const USERBASE: nat := 0x0020_0000
  const USERTOP: nat := 0xB000_0000
  // get_unmapped_area searches below the 256-page stack reservation
  const MMAP_LIMIT: nat := USERTOP - 256 * PGSIZE

  type Addr = a: nat | a < WORD

  function Wrap(x: nat): (r: Addr) { x % WORD }

  function RoundDown(a: Addr): (r: Addr) { a - a % PGSIZE }

  // Rounding up wraps to 0 in the last page of the address space.
  function RoundUp(a: Addr): (r: Addr) { RoundDown(Wrap(a + (PGSIZE - 1))) }

  predicate UserAccess(start: nat, end: nat) { USERBASE <= start < end <= USERTOP }

  predicate Aligned(a: nat) { a % PGSIZE == 0 }

  type Byte = b: nat | b < 256

  datatype Option<+T> = None | Some(value: T)

  datatype Status = Ok | Inval | NoMem | IoError

  // Going round a ring of n places once.
  lemma WrapOnce(x: nat, n: nat)
    requires x < n
    ensures x % n == x && (n + x) % n == x
  {
    var q, r := (n + x) / n, (n + x) % n;
    assert n + x == n * q + r;
    assert (q >= 2 ==> n * q >= n * 2) && (q <= 0 ==> n * q <= 0);
  }

  lemma Regroup<T>(a: seq<T>, b: seq<T>, c: seq<T>)
    ensures a + (b + c) == (a + b) + c
  { }
}
