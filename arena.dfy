/** The bump allocator that carves queue slot arrays and payload buffers out of
    the region. It only ever moves forward: nothing is given back within a
    session, so every block it hands out is disjoint from every other. */
module Arena {
  import opened Layout

  /** The byte range [offset, offset + size) of the region. */
  datatype Block = Block(offset: nat, size: nat)

  /** The allocator state of the host: the first free byte and the bytes left. */
  datatype Arena = Arena(nextFree: nat, avail: nat)

  function End(b: Block): nat
  {
    b.offset + b.size
  }

  /** `blocks` lie end to end, the first starting at `lo` and the last ending
      at `hi`: the history of a bump allocator that started at `lo`. */
  predicate Tiles(blocks: seq<Block>, lo: nat, hi: nat)
    decreases |blocks|
  {
    if blocks == [] then lo == hi
    else blocks[0].offset == lo && Tiles(blocks[1..], lo + blocks[0].size, hi)
  }

  /** The one allocation policy of both call sites (queue creation and payload
      allocation): carve `n` bytes at the free offset, or fail when fewer than
      `n` bytes remain. */
  function Carve(a: Arena, n: nat): (r: Option<(Block, Arena)>)
    ensures r.None? <==> n > a.avail
    ensures r.Some? ==> r.value.0.offset == a.nextFree && r.value.0.size == n
    ensures r.Some? ==> r.value.1.nextFree == End(r.value.0)
    ensures r.Some? ==> r.value.1.nextFree + r.value.1.avail == a.nextFree + a.avail
  {
    if n > a.avail then None
    else Some((Block(a.nextFree, n), Arena(a.nextFree + n, a.avail - n)))
  }

  /** Serves the requests `sizes` in order, skipping the ones that fail (as a
      caller does after LGMP_ERR_NO_SHARED_MEM); yields the granted blocks and
      the final allocator state. */
  function CarveAll(a: Arena, sizes: seq<nat>): (seq<Block>, Arena)
    decreases |sizes|
  {
    if sizes == [] then ([], a)
    else
      match Carve(a, sizes[0])
      case None => CarveAll(a, sizes[1..])
      case Some((b, next)) =>
        var (rest, last) := CarveAll(next, sizes[1..]);
        ([b] + rest, last)
  }

  /** Appending the block that starts where the tiling ends extends it. */
  lemma {:induction false} TilesAppend(blocks: seq<Block>, lo: nat, hi: nat, size: nat)
    requires Tiles(blocks, lo, hi)
    ensures Tiles(blocks + [Block(hi, size)], lo, hi + size)
    decreases |blocks|
  {
    if blocks != [] {
      TilesAppend(blocks[1..], lo + blocks[0].size, hi, size);
      assert (blocks + [Block(hi, size)])[1..] == blocks[1..] + [Block(hi, size)];
    }
  }

  /** Every block of a tiling lies inside [lo, hi), and a later block starts
      no earlier than an earlier one ends: no two blocks overlap. */
  lemma {:induction false} TilesDisjoint(blocks: seq<Block>, lo: nat, hi: nat)
    requires Tiles(blocks, lo, hi)
    ensures lo <= hi
    ensures forall i :: 0 <= i < |blocks| ==> lo <= blocks[i].offset && End(blocks[i]) <= hi
    ensures forall i, j :: 0 <= i < j < |blocks| ==> End(blocks[i]) <= blocks[j].offset
    decreases |blocks|
  {
    if blocks != [] {
      var tail := blocks[1..];
      TilesDisjoint(tail, lo + blocks[0].size, hi);
      forall i | 0 < i < |blocks|
        ensures blocks[i] == tail[i - 1]
      {
      }
    }
  }

  /** Whatever sequence of requests is served, the granted blocks tile the
      bytes between the old and the new free offset, and `nextFree + avail`
      never changes. */
  lemma {:induction false} CarveAllTiles(a: Arena, sizes: seq<nat>)
    ensures Tiles(CarveAll(a, sizes).0, a.nextFree, CarveAll(a, sizes).1.nextFree)
    ensures CarveAll(a, sizes).1.nextFree + CarveAll(a, sizes).1.avail == a.nextFree + a.avail
    decreases |sizes|
  {
    if sizes != [] {
      match Carve(a, sizes[0])
      case None =>
        CarveAllTiles(a, sizes[1..]);
      case Some((b, next)) =>
        CarveAllTiles(next, sizes[1..]);
        var rest := CarveAll(next, sizes[1..]).0;
        assert ([b] + rest)[1..] == rest;
    }
  }

  /** Successive allocations never overlap, and all of them stay inside the
      free space the allocator started with. */
  lemma CarveAllDisjoint(a: Arena, sizes: seq<nat>)
    ensures forall i, j :: 0 <= i < j < |CarveAll(a, sizes).0| ==>
      End(CarveAll(a, sizes).0[i]) <= CarveAll(a, sizes).0[j].offset
    ensures forall i :: 0 <= i < |CarveAll(a, sizes).0| ==>
      a.nextFree <= CarveAll(a, sizes).0[i].offset && End(CarveAll(a, sizes).0[i]) <= a.nextFree + a.avail
  {
    CarveAllTiles(a, sizes);
    TilesDisjoint(CarveAll(a, sizes).0, a.nextFree, CarveAll(a, sizes).1.nextFree);
  }
}
