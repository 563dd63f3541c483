/** The slab pool behind `Writer.alloc`: buffers are slices of shared slabs. */
module Pools {
  import opened Bits

  /** A stretch of an array, as `subarray` gives it. */
  datatype Slice = Slice(slab: array<byte>, start: nat, size: nat) {
    ghost predicate Inside()
    {
      start + size <= slab.Length
    }

    ghost function Bytes(): bytes
      requires Inside()
      reads slab
    {
      slab[start..start + size]
    }
  }

  ghost predicate Disjoint(a: Slice, b: Slice) {
    a.slab != b.slab || a.start + a.size <= b.start || b.start + b.size <= a.start
  }

  ghost predicate Apart(given: seq<Slice>) {
    forall i, j | 0 <= i < j < |given| :: Disjoint(given[i], given[j])
  }

  lemma ApartPush(given: seq<Slice>, buf: Slice)
    requires Apart(given) && forall a | a in given :: Disjoint(a, buf)
    ensures Apart(given + [buf])
    ensures forall a | a in given + [buf] :: a in given || a == buf
  {
  }

  class Pool {
    const slabSize: nat
    const max: nat
    var slab: array?<byte>
    var offset: nat
    /** Every slice handed out so far. */
    ghost var given: seq<Slice>

    ghost predicate Valid()
      reads this
    {
      && slabSize > 0 && max == slabSize / 2
      && (slab == null ==> offset == slabSize)
      && (slab != null ==> slab.Length == slabSize)
      && (offset < slabSize ==> offset % 8 == 0)
      && (forall a | a in given :: Aligned(a) && a.Inside() && (slab == a.slab ==> a.start + a.size <= offset))
      && Apart(given)
    }

    static ghost predicate Aligned(a: Slice) {
      a.start % 8 == 0
    }

    constructor (size: nat)
      ensures Valid() && given == [] && fresh(this)
      ensures slabSize == if size == 0 then 8192 else size
    {
      slabSize := if size == 0 then 8192 else size;
      max := (if size == 0 then 8192 else size) / 2;
      slab := null;
      offset := if size == 0 then 8192 else size;
      given := [];
    }

    /** Hands out exactly `size` bytes, aligned to eight and disjoint from every slice handed out
        before; no slab is written to. */
    method Alloc(size: nat) returns (buf: Slice)
      requires Valid()
      modifies this
      ensures Valid() && given == old(given) + [buf]
      ensures buf.size == size && buf.Inside() && buf.start % 8 == 0
      ensures if 1 <= size <= slabSize / 2 then buf.slab == slab && slab.Length == slabSize
              else fresh(buf.slab) && buf.slab.Length == size && slab == old(slab)
      ensures forall a | a in old(given) :: Disjoint(a, buf)
      ensures fresh(buf.slab) || buf.slab == old(slab)
      ensures slab == old(slab) || fresh(slab)
    {
      hide Apart;
      if size < 1 || size > max {
        var own := new byte[size](_ => 0);
        buf := Slice(own, 0, size);
      } else {
        if offset + size > slabSize {
          slab := new byte[slabSize](_ => 0);
          offset := 0;
        }
        buf := Slice(slab, offset, size);
        offset := offset + size;
        if offset % 8 != 0 {
          offset := offset - offset % 8 + 8;
        }
      }
      ApartPush(given, buf);
      given := given + [buf];
    }
  }
}
