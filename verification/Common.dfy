/** What several components share. */
module Common {
  datatype Option<+T> = None | Some(value: T)

  /** AV_NOPTS_VALUE: no timestamp. */
  const NOPTS: int := -0x8000_0000_0000_0000
  const INT64_MAX: int := 0x7FFF_FFFF_FFFF_FFFF

  /** One of the three with another one on either side of it. */
  predicate IsMedian(m: int, a: int, b: int, c: int) {
    || (m == a && (b <= a <= c || c <= a <= b))
    || (m == b && (a <= b <= c || c <= b <= a))
    || (m == c && (a <= c <= b || b <= c <= a))
  }
}
