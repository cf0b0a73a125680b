/** Small notions that several components share. */
module Common {
  type byte = x: int | 0 <= x < 256

  /** Time passed since `since`, never negative. */
  function Elapsed(since: int, now: int): nat {
    if now < since then 0 else now - since
  }

  function Join(parts: seq<string>, separator: string): string {
    if parts == [] then ""
    else if |parts| == 1 then parts[0]
    else parts[0] + separator + Join(parts[1..], separator)
  }
}
