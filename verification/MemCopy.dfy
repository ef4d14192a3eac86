/** rt_memcpy on whole words. */
module MemCopy {
  method CopyWords(arena: array<int>, dst: int, src: int, count: int)
    requires 0 <= count && 0 <= src && src + count <= arena.Length && 0 <= dst && dst + count <= arena.Length
    requires src + count <= dst || dst + count <= src
    modifies arena
    ensures forall x :: dst <= x < dst + count ==> arena[x] == old(arena[src + (x - dst)])
    ensures forall x :: 0 <= x < arena.Length && !(dst <= x < dst + count) ==> arena[x] == old(arena[x])
  {
    for i := 0 to count
      invariant forall x :: dst <= x < dst + i ==> arena[x] == old(arena[src + (x - dst)])
      invariant forall x :: 0 <= x < arena.Length && !(dst <= x < dst + i) ==> arena[x] == old(arena[x])
    {
      arena[dst + i] := arena[src + i];
    }
  }
}
