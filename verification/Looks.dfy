/** What an allocation can see: blocks of a class that guarantees the request, and the blocks of the one
    list it walks when there is none. */
module Looks {
  import opened Arith
  import opened Cells
  import opened SizeClasses

  /** A free block of a class that a request for `ask` bytes searches. */
  ghost predicate Seen(c: Cell, granularity: nat, ask: nat) {
    granularity > 0 && c.free && Mapping(c.size, granularity).Rank() >= MappingUp(ask, granularity).Rank()
  }

  /** Some free block is where a request for `ask` bytes looks. */
  ghost predicate Hit(cells: seq<Cell>, granularity: nat, ask: nat) {
    exists c :: c in cells && Seen(c, granularity, ask)
  }

  /** Every free block is smaller than 17/16 of `ask` bytes. */
  ghost predicate NoneNear(cells: seq<Cell>, ask: nat) {
    forall c :: c in cells && c.free ==> 16 * c.size < 17 * ask
  }

  ghost predicate NoHigher(c: Cell, e: Cell, granularity: nat) {
    granularity > 0 && Mapping(c.size, granularity).Rank() <= Mapping(e.size, granularity).Rank()
  }

  /** A block of the first class a request for `ask` bytes finds anything in. */
  ghost predicate FirstSeen(cells: seq<Cell>, granularity: nat, c: Cell, ask: nat) {
    Seen(c, granularity, ask) && forall e :: e in cells && Seen(e, granularity, ask) ==> NoHigher(c, e, granularity)
  }

  /** The block can hold `size` bytes at a multiple of `align`. */
  ghost predicate Holds(c: Cell, size: nat, align: nat) {
    c.free && AlignUp(c.offset, align) + size <= c.End()
  }

  /** Some block of that first class holds size at align. */
  ghost predicate SecondLook(cells: seq<Cell>, granularity: nat, size: nat, align: nat) {
    exists c :: c in cells && FirstSeen(cells, granularity, c, size) && Holds(c, size, align)
  }

  /** When a request is served: a class guarantees it with its padding, or the second look finds it. */
  ghost predicate Servable(cells: seq<Cell>, granularity: nat, size: nat, align: nat) {
    && align >= granularity
    && (|| Hit(cells, granularity, size + align - granularity)
        || (align > granularity && SecondLook(cells, granularity, size, align)))
  }
}
