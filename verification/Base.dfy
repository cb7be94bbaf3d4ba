/** What several parts of the server share. */
module Base {
  type byte = b: int | 0 <= b < 256

  datatype Option<T> = None | Some(value: T)

  /** VSFTP_DATA_BUFSIZE */
  const DATA_BUFSIZE: nat := 65536

  function Pow2(k: nat): (r: nat)
    ensures r > 0
  {
    if k == 0 then 1 else 2 * Pow2(k - 1)
  }

  /** The sequence without its element `i`. */
  function Without<T>(s: seq<T>, i: nat): seq<T>
    requires i < |s|
  {
    s[..i] + s[i + 1..]
  }
}
