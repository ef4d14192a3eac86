/** Sizes in words. RT_ALIGN_SIZE is 4 bytes, so every offset and size the allocators form
    from aligned numbers is a whole number of words. */
module Align {
  // RT_ALIGN(bytes, RT_ALIGN_SIZE)
  function Words(bytes: nat): (w: nat)
    ensures bytes <= 4 * w < bytes + 4
  {
    (bytes + 3) / 4
  }

  // So many words hold so many bytes.
  lemma WordsHold(bytes: nat, least: nat, k: int)
    ensures Max(Words(bytes), least) <= k <==> Max(bytes, 4 * least) <= 4 * k
  {
  }

  function Max(a: int, b: int): (m: int)
    ensures a <= m && b <= m && m in {a, b}
  {
    if a < b then b else a
  }
}
