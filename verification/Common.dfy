/** Values shared by every component: bytes, optional values and results. */
module Common {
  type byte = x: int | 0 <= x < 256

  type Bytes = seq<byte>

  datatype Option<+T> = None | Some(value: T)

  datatype Result<+T, +E> = Ok(value: T) | Err(error: E)

  function Min(a: int, b: int): int {
    if a <= b then a else b
  }

  function Max(a: int, b: int): int {
    if a >= b then a else b
  }

  /** What a transport returns next from the replies that are still to come; it times out when they are used up. */
  function Head(replies: seq<Option<Bytes>>): Option<Bytes> {
    if replies == [] then None else replies[0]
  }

  function Rest(replies: seq<Option<Bytes>>): seq<Option<Bytes>> {
    if replies == [] then [] else replies[1..]
  }

  lemma UniqueQuotient(x: int, n: int, q: int, r: int)
    requires n > 0 && x == q * n + r && 0 <= r < n
    ensures x / n == q && x % n == r
  {
    var d := x / n - q;
    assert x == x / n * n + x % n;
    assert d * n == r - x % n;
    MultipleOutside(d, n);
  }

  lemma MultipleOutside(d: int, n: int)
    requires n > 0
    ensures d >= 1 ==> d * n >= n
    ensures d <= -1 ==> d * n <= -n
  {
  }
}
