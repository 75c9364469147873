/** The bump allocator (util/arena.cpp, util/arena.h). Addresses are numbers; 0 is the null pointer. */
module Arena {

  const BLOCK_SIZE: nat := 4096
  const ALIGN: nat := 8
  const POINTER_SIZE: nat := 8

  /** `size` bytes from `start` on. */
  datatype Region = Region(start: nat, size: nat)

  /** No byte in common. */
  predicate Apart(a: Region, b: Region) {
    a.size == 0 || b.size == 0 || a.start + a.size <= b.start || b.start + b.size <= a.start
  }

  predicate Inside(a: Region, b: Region) {
    b.start <= a.start && a.start + a.size <= b.start + b.size
  }

  ghost predicate AllApart(s: seq<Region>) {
    forall i, j :: 0 <= i < j < |s| ==> Apart(s[i], s[j])
  }

  function Bytes(s: seq<Region>): nat {
    if s == [] then 0 else Bytes(s[..|s| - 1]) + s[|s| - 1].size
  }

  lemma BytesAppend(s: seq<Region>, r: Region)
    ensures Bytes(s + [r]) == Bytes(s) + r.size
  {
    assert (s + [r])[..|s|] == s;
  }

  /** The block a fallback asks the system for. */
  function NewBlockSize(bytes: nat): (size: nat)
    ensures bytes <= size
  {
    if bytes > BLOCK_SIZE / 4 then bytes else BLOCK_SIZE
  }

  /** What operator new promises of the address it returns. */
  ghost predicate Fresh(base: nat, size: nat, blocks: seq<Region>) {
    && base > 0 && base % ALIGN == 0
    && forall i :: 0 <= i < |blocks| ==> Apart(Region(base, size), blocks[i])
  }

  /** The pieces handed out: apart from each other, each in one block, none in the room that is left. */
  ghost predicate Carved(given: seq<Region>, blocks: seq<Region>, free: Region) {
    && AllApart(given)
    && (forall i :: 0 <= i < |given| ==> Apart(given[i], free) && InSome(given[i], blocks))
  }

  ghost predicate InSome(r: Region, blocks: seq<Region>) {
    r.size > 0 ==> exists b :: 0 <= b < |blocks| && Inside(r, blocks[b])
  }

  /** At most a quarter of a retired block is waste; an aligned request adds at most 7 bytes. */
  ghost predicate Thrifty(blocks: seq<Region>, requested: nat, aligned: nat, current: bool, left: nat) {
    if current then left <= BLOCK_SIZE && 3 * (Bytes(blocks) - BLOCK_SIZE) <= 4 * (requested + 7 * aligned - (BLOCK_SIZE - left))
    else left == 0 && 3 * Bytes(blocks) <= 4 * (requested + 7 * aligned)
  }

  lemma CarveFront(given: seq<Region>, blocks: seq<Region>, free: Region, slop: nat, bytes: nat)
    requires Carved(given, blocks, free) && InSome(free, blocks) && slop + bytes <= free.size
    ensures var rest := Region(free.start + slop + bytes, free.size - slop - bytes);
            Carved(given + [Region(free.start + slop, bytes)], blocks, rest) && InSome(rest, blocks)
  {
  }

  lemma MoreBlocks(r: Region, blocks: seq<Region>, b: Region)
    requires InSome(r, blocks)
    ensures InSome(r, blocks + [b])
  {
    if r.size > 0 {
      var i :| 0 <= i < |blocks| && Inside(r, blocks[i]);
      assert Inside(r, (blocks + [b])[i]);
    }
  }

  /** A fresh block meets neither the free room nor anything handed out. */
  lemma FreshIsApart(r: Region, blocks: seq<Region>, base: nat, size: nat)
    requires InSome(r, blocks) && Fresh(base, size, blocks)
    ensures Apart(r, Region(base, size))
  {
    if r.size > 0 {
      var i :| 0 <= i < |blocks| && Inside(r, blocks[i]);
      assert Apart(Region(base, size), blocks[i]);
    }
  }

  /** A new block of which the first `bytes` go out; the free room stays, or becomes the rest of the block. */
  lemma CarveBlock(given: seq<Region>, blocks: seq<Region>, free: Region, base: nat, size: nat, bytes: nat, rest: Region)
    requires Carved(given, blocks, free) && InSome(free, blocks) && Fresh(base, size, blocks) && bytes <= size
    requires rest == free || rest == Region(base + bytes, size - bytes)
    ensures Carved(given + [Region(base, bytes)], blocks + [Region(base, size)], rest)
    ensures InSome(rest, blocks + [Region(base, size)])
  {
    var block, piece := Region(base, size), Region(base, bytes);
    var blocks', given' := blocks + [block], given + [piece];
    assert Inside(piece, blocks'[|blocks|]) && blocks'[|blocks|] == block;
    FreshIsApart(free, blocks, base, size);
    MoreBlocks(free, blocks, block);
    forall i | 0 <= i < |given| ensures Apart(given[i], piece) && Apart(given[i], rest) && InSome(given[i], blocks') {
      FreshIsApart(given[i], blocks, base, size);
      MoreBlocks(given[i], blocks, block);
    }
  }

  /** Retiring the open block is paid for by what it holds: the request did not fit into what was left. */
  lemma RetireBlock(blocks: seq<Region>, requested: nat, aligned: nat, current: bool, left: nat, bytes: nat, charge: nat, base: nat)
    requires Thrifty(blocks, requested, aligned, current, left)
    requires bytes <= BLOCK_SIZE / 4 && charge <= 1 && left < bytes + 7 * charge
    ensures Thrifty(blocks + [Region(base, BLOCK_SIZE)], requested + bytes, aligned + charge, true, BLOCK_SIZE - bytes)
  {
    BytesAppend(blocks, Region(base, BLOCK_SIZE));
  }

  lemma LargeBlock(blocks: seq<Region>, requested: nat, aligned: nat, current: bool, left: nat, bytes: nat, charge: nat, base: nat)
    requires Thrifty(blocks, requested, aligned, current, left)
    ensures Thrifty(blocks + [Region(base, bytes)], requested + bytes, aligned + charge, current, left)
  {
    BytesAppend(blocks, Region(base, bytes));
  }

  /** What an arena has been through: its blocks, every region returned, the room left in the open block,
      what was asked for in all, how many requests were aligned, and whether a standard block is open. */
  datatype Ledger = Ledger(blocks: seq<Region>, given: seq<Region>, free: Region, requested: nat, aligned: nat, current: bool)

  ghost predicate Ok(l: Ledger) {
    && AllApart(l.blocks)
    && Carved(l.given, l.blocks, l.free) && InSome(l.free, l.blocks)
    && Thrifty(l.blocks, l.requested, l.aligned, l.current, l.free.size)
  }

  /** The front of the free room goes out: `slop` bytes unused, then the piece. */
  ghost function Bumped(l: Ledger, slop: nat, bytes: nat, charge: nat): Ledger
    requires slop + bytes <= l.free.size
  {
    l.(given := l.given + [Region(l.free.start + slop, bytes)],
       free := Region(l.free.start + slop + bytes, l.free.size - slop - bytes),
       requested := l.requested + bytes, aligned := l.aligned + charge)
  }

  /** The piece is a block of its own. */
  ghost function WithOwn(l: Ledger, base: nat, bytes: nat, charge: nat): Ledger {
    l.(blocks := l.blocks + [Region(base, bytes)], given := l.given + [Region(base, bytes)],
       requested := l.requested + bytes, aligned := l.aligned + charge)
  }

  /** A standard block takes the place of the open one; its front is the piece. */
  ghost function WithOpen(l: Ledger, base: nat, bytes: nat, charge: nat): Ledger
    requires bytes <= BLOCK_SIZE
  {
    Ledger(l.blocks + [Region(base, BLOCK_SIZE)], l.given + [Region(base, bytes)], Region(base + bytes, BLOCK_SIZE - bytes),
           l.requested + bytes, l.aligned + charge, true)
  }

  lemma BumpedOk(l: Ledger, slop: nat, bytes: nat, charge: nat)
    requires Ok(l) && slop + bytes <= l.free.size && slop <= 7 * charge
    ensures Ok(Bumped(l, slop, bytes, charge))
  {
    CarveFront(l.given, l.blocks, l.free, slop, bytes);
  }

  lemma WithOwnOk(l: Ledger, base: nat, bytes: nat, charge: nat)
    requires Ok(l) && Fresh(base, bytes, l.blocks)
    ensures Ok(WithOwn(l, base, bytes, charge))
  {
    CarveBlock(l.given, l.blocks, l.free, base, bytes, bytes, l.free);
    LargeBlock(l.blocks, l.requested, l.aligned, l.current, l.free.size, bytes, charge, base);
  }

  lemma WithOpenOk(l: Ledger, base: nat, bytes: nat, charge: nat)
    requires Ok(l) && Fresh(base, BLOCK_SIZE, l.blocks) && bytes <= BLOCK_SIZE / 4
    requires charge <= 1 && l.free.size < bytes + 7 * charge
    ensures Ok(WithOpen(l, base, bytes, charge))
  {
    CarveBlock(l.given, l.blocks, l.free, base, BLOCK_SIZE, bytes, Region(base + bytes, BLOCK_SIZE - bytes));
    RetireBlock(l.blocks, l.requested, l.aligned, l.current, l.free.size, bytes, charge, base);
  }

  /** What callers rely on: pieces apart and inside owned blocks, and at most a third more memory than asked for,
      plus a block and 7 bytes for every aligned request. */
  ghost predicate Sound(l: Ledger) {
    && AllApart(l.blocks) && AllApart(l.given)
    && (forall i :: 0 <= i < |l.given| ==> InSome(l.given[i], l.blocks))
    && 3 * Bytes(l.blocks) <= 4 * (l.requested + 7 * l.aligned) + 3 * BLOCK_SIZE
  }

  lemma OkIsSound(l: Ledger)
    requires Ok(l)
    ensures Sound(l)
  {
  }

  /** Bytes to the next aligned address. */
  function Slop(ptr: nat): (slop: nat)
    ensures slop < ALIGN && (ptr + slop) % ALIGN == 0
  {
    var currentMod := ptr % ALIGN;
    if currentMod == 0 then 0 else ALIGN - currentMod
  }

  class Arena {
    var allocPtr: nat
    var allocBytesRemaining: nat
    var blocks: seq<Region>
    var memoryUsage: nat
    ghost var ledger: Ledger

    ghost predicate Valid()
      reads this
    {
      && Ok(ledger)
      && ledger.free == Region(allocPtr, allocBytesRemaining) && ledger.blocks == blocks
      && memoryUsage == Bytes(blocks) + POINTER_SIZE * |blocks|
    }

    constructor ()
      ensures Valid() && ledger == Ledger([], [], Region(0, 0), 0, 0, false)
    {
      allocPtr, allocBytesRemaining, blocks, memoryUsage := 0, 0, [], 0;
      ledger := Ledger([], [], Region(0, 0), 0, 0, false);
    }

    /** Where a request goes: into the open block if it fits, else into a block of its own if it is more than a
        quarter block, else to the front of a new open block. */
    ghost predicate Placed(ptr: nat, left: nat, had: seq<Region>, slop: nat, bytes: nat, base: nat, result: nat)
      reads this
    {
      if slop + bytes <= left then
        result == ptr + slop && blocks == had && allocPtr == result + bytes && allocBytesRemaining == left - slop - bytes
      else
        && result == base
        && if bytes > 1024 then blocks == had + [Region(base, bytes)] && allocPtr == ptr && allocBytesRemaining == left
           else blocks == had + [Region(base, 4096)] && allocPtr == base + bytes && allocBytesRemaining == 4096 - bytes
    }

    /** `base` is the address the system has for a new block. */
    method Allocate(bytes: nat, base: nat) returns (result: nat)
      requires Valid() && bytes > 0 && Fresh(base, NewBlockSize(bytes), blocks)
      modifies this
      ensures Valid() && Sound(ledger)
      ensures ledger.given == old(ledger.given) + [Region(result, bytes)]
      ensures ledger.requested == old(ledger.requested) + bytes && ledger.aligned == old(ledger.aligned)
      ensures Placed(old(allocPtr), old(allocBytesRemaining), old(blocks), 0, bytes, base, result)
    {
      if bytes <= allocBytesRemaining {
        result := allocPtr;
        Bump(0, bytes, 0);
      } else {
        result := AllocateFallback(bytes, base, 0);
      }
      OkIsSound(ledger);
    }

    method AllocateAligned(bytes: nat, base: nat) returns (result: nat)
      requires Valid() && Fresh(base, NewBlockSize(bytes), blocks)
      modifies this
      ensures Valid() && Sound(ledger)
      ensures result % ALIGN == 0
      ensures ledger.given == old(ledger.given) + [Region(result, bytes)]
      ensures ledger.requested == old(ledger.requested) + bytes && ledger.aligned == old(ledger.aligned) + 1
      ensures Placed(old(allocPtr), old(allocBytesRemaining), old(blocks), Slop(old(allocPtr)), bytes, base, result)
    {
      var slop := Slop(allocPtr);
      var needed := bytes + slop;
      if needed <= allocBytesRemaining {
        result := allocPtr + slop;
        Bump(slop, bytes, 1);
      } else {
        result := AllocateFallback(bytes, base, 1);
      }
      assert result % ALIGN == 0;
      OkIsSound(ledger);
    }

    method Bump(slop: nat, bytes: nat, ghost charge: nat)
      requires Valid() && slop + bytes <= allocBytesRemaining && slop <= 7 * charge
      modifies `allocPtr, `allocBytesRemaining, `ledger
      ensures Valid() && ledger == Bumped(old(ledger), slop, bytes, charge)
      ensures ledger.given == old(ledger.given) + [Region(old(allocPtr) + slop, bytes)]
    {
      BumpedOk(ledger, slop, bytes, charge);
      ledger := Bumped(ledger, slop, bytes, charge);
      allocPtr, allocBytesRemaining := allocPtr + slop + bytes, allocBytesRemaining - slop - bytes;
    }

    /** Called when the request, with up to 7 bytes of slop if aligned, does not fit into the open block. */
    method AllocateFallback(bytes: nat, base: nat, ghost charge: nat) returns (result: nat)
      requires Valid() && Fresh(base, NewBlockSize(bytes), blocks)
      requires charge <= 1 && allocBytesRemaining < bytes + 7 * charge
      modifies this
      ensures Valid() && result == base
      ensures ledger == if bytes > BLOCK_SIZE / 4 then WithOwn(old(ledger), base, bytes, charge)
                        else WithOpen(old(ledger), base, bytes, charge)
    {
      if bytes > BLOCK_SIZE / 4 {
        ghost var own := WithOwn(ledger, base, bytes, charge);
        WithOwnOk(ledger, base, bytes, charge);
        result := AllocateNewBlock(bytes, base);
        ledger := own;
        return;
      }
      ghost var open := WithOpen(ledger, base, bytes, charge);
      WithOpenOk(ledger, base, bytes, charge);
      ledger := open;
      allocPtr := AllocateNewBlock(BLOCK_SIZE, base);
      allocBytesRemaining := BLOCK_SIZE;
      result := allocPtr;
      allocPtr := allocPtr + bytes;
      allocBytesRemaining := allocBytesRemaining - bytes;
    }

    method AllocateNewBlock(blockBytes: nat, base: nat) returns (result: nat)
      requires memoryUsage == Bytes(blocks) + POINTER_SIZE * |blocks|
      modifies `blocks, `memoryUsage
      ensures result == base && blocks == old(blocks) + [Region(base, blockBytes)]
      ensures memoryUsage == Bytes(blocks) + POINTER_SIZE * |blocks|
    {
      BytesAppend(blocks, Region(base, blockBytes));
      blocks := blocks + [Region(base, blockBytes)];
      memoryUsage := memoryUsage + blockBytes + POINTER_SIZE;
      result := base;
    }
  }
}
