/** The bump allocator over malloced blocks, in 64-bit arithmetic, and the call sequence that stands in for calloc. */
module Arena {
  import opened Words
  import opened AlignMask

  datatype Block = Block(data: nat, capacity: nat, used: nat)

  /** Memory handed out: [start, start + size). */
  datatype Span = Span(start: nat, size: nat)

  /** A block lies in the address space, its one-past-the-end address included. */
  predicate BlockOk(b: Block) {
    1 <= b.data && b.data + b.capacity < WORD && b.used <= b.capacity
  }

  predicate Apart(start: nat, size: nat, start': nat, size': nat) {
    start + size <= start' || start' + size' <= start
  }

  predicate BlocksApart(bs: seq<Block>) {
    forall j, k :: 0 <= j < k < |bs| ==> Apart(bs[j].data, bs[j].capacity, bs[k].data, bs[k].capacity)
  }

  predicate Contains(b: Block, a: Span) {
    b.data <= a.start && a.start + a.size <= b.data + b.used
  }

  predicate Inside(bs: seq<Block>, a: Span) {
    exists k :: 0 <= k < |bs| && Contains(bs[k], a)
  }

  predicate SpansApart(spans: seq<Span>) {
    forall i, j :: 0 <= i < j < |spans| ==> Apart(spans[i].start, spans[i].size, spans[j].start, spans[j].size)
  }

  predicate Sound(bs: seq<Block>, spans: seq<Span>) {
    && (forall k :: 0 <= k < |bs| ==> BlockOk(bs[k]))
    && BlocksApart(bs) && SpansApart(spans)
    && (forall i :: 0 <= i < |spans| ==> Inside(bs, spans[i]))
  }

  /** What malloc may answer: null, or fresh memory. */
  predicate MallocAnswer(bs: seq<Block>, answer: nat, capacity: nat) {
    answer != 0 ==>
      && answer + capacity < WORD
      && forall k :: 0 <= k < |bs| ==> Apart(bs[k].data, bs[k].capacity, answer, capacity)
  }

  /** What malloc may answer a request that it is asked for: one the overflow guard lets through. */
  predicate RequestAnswer(bs: seq<Block>, answer: nat, size: nat, alignment: nat, defaultBlockSize: nat) {
    size + alignment < WORD ==> MallocAnswer(bs, answer, Max(size + alignment, defaultBlockSize))
  }

  function Max(a: nat, b: nat): nat { if a > b then a else b }

  // ---------------------------------------------------------------- placing a request in a block

  /** aligned - addr in wrapping arithmetic, from the first unused byte of the block. */
  function Padding(b: Block, alignment: nat): (p: nat)
    requires BlockOk(b) && 1 <= alignment < WORD
    ensures p < WORD
  {
    (MaskUp(b.data + b.used, alignment) + WORD - (b.data + b.used)) % WORD
  }

  /** The fast-path test. */
  predicate HasRoom(b: Block, size: nat, alignment: nat)
    requires BlockOk(b) && 1 <= alignment < WORD
  {
    (Padding(b, alignment) + size) % WORD <= b.capacity - b.used
  }

  /** With the overflow guard passed no sum wraps, and the test holds exactly if the aligned request ends inside the block. */
  lemma RoomMeansRoom(b: Block, size: nat, alignment: nat)
    requires BlockOk(b) && 1 <= alignment < WORD && 1 <= size && size + alignment < WORD
    ensures
      var addr := b.data + b.used;
      var aligned := MaskUp(addr, alignment);
      && Padding(b, alignment) <= alignment - 1
      && (HasRoom(b, size, alignment) <==> addr <= aligned && aligned + size <= b.data + b.capacity)
      && (HasRoom(b, size, alignment) ==> aligned == addr + Padding(b, alignment))
  {
    hide MaskUp;
    var addr := b.data + b.used;
    if addr + alignment - 1 < WORD {
      MaskUpRange(addr, alignment);
      DivMod(MaskUp(addr, alignment) + WORD - addr, WORD, 1, MaskUp(addr, alignment) - addr);
    } else {
      MaskUpWraps(addr, alignment);
      DivMod(MaskUp(addr, alignment) + WORD - addr, WORD, 0, MaskUp(addr, alignment) + WORD - addr);
    }
    DivMod(Padding(b, alignment) + size, WORD, 0, Padding(b, alignment) + size);
  }

  /** There is an aligned place for the request in the block's unused part. */
  ghost predicate Fits(b: Block, size: nat, alignment: nat)
    requires alignment > 0
  {
    exists p: nat :: p % alignment == 0 && b.data + b.used <= p && p + size <= b.data + b.capacity
  }

  /** For a power of two the fast path is taken exactly if there is an aligned place in the block. */
  lemma RoomIfFits(b: Block, size: nat, k: nat)
    requires BlockOk(b) && k < WIDTH && 1 <= size && size + Pow2(k) < WORD
    ensures HasRoom(b, size, Pow2(k)) <==> Fits(b, size, Pow2(k))
  {
    hide MaskUp, Pow2, Padding, HasRoom;
    var a, addr := Pow2(k), b.data + b.used;
    RoomMeansRoom(b, size, a);
    if HasRoom(b, size, a) {
      if addr + a - 1 < WORD { MaskUpRounds(addr, k); } else { MaskUpWraps(addr, a); }
    }
    if p: nat :| p % a == 0 && addr <= p && p + size <= b.data + b.capacity {
      MultipleBelowWord(p, k);
      MaskUpRounds(addr, k);
      LeastMultiple(addr, a, p);
    }
  }

  lemma LaterMultiple(a: nat, i: nat, j: nat)
    ensures i < j ==> a * i + a <= a * j
  {
    if i < j {
      var d: nat := j - i - 1;
      assert a * (i + d + 1) == a * i + a * d + a;
    }
  }

  lemma LeastMultiple(x: nat, a: nat, p: nat)
    requires a > 0 && p % a == 0 && x <= p
    ensures (x + a - 1) / a * a <= p
  {
    var q, r, j := (x + a - 1) / a, (x + a - 1) % a, p / a;
    assert x + a - 1 == a * q + r;
    assert p == a * j;
    LaterMultiple(a, j, q);
    LaterMultiple(a, q, j);
    assert q * a == a * q;
  }

  lemma MultipleBelowWord(p: nat, k: nat)
    requires k < WIDTH && Pow2(k) > 0 && p < WORD && p % Pow2(k) == 0
    ensures p + Pow2(k) <= WORD
  {
    hide Pow2;
    WordSize();
    PowSum(k, WIDTH - k);
    var a, b, j := Pow2(k), Pow2(WIDTH - k), p / Pow2(k);
    assert p == a * j;
    LaterMultiple(a, j, b);
    LaterMultiple(a, b, j);
  }

  /** The cases in which a request gets null: no block was ever made, the overflow guard, or neither room nor memory. */
  predicate Denied(bs: seq<Block>, size: nat, alignment: nat, answer: nat)
    requires (|bs| > 0 ==> BlockOk(bs[|bs| - 1])) && 1 <= alignment < WORD
  {
    |bs| == 0 || size + alignment >= WORD || (!HasRoom(bs[|bs| - 1], size, alignment) && answer == 0)
  }

  /** A block made for the request always has room for it. */
  lemma NewBlockHasRoom(b: Block, size: nat, alignment: nat)
    requires BlockOk(b) && 1 <= alignment < WORD && 1 <= size && size + alignment <= b.capacity && b.used == 0
    ensures HasRoom(b, size, alignment)
  {
    hide MaskUp;
    MaskUpRange(b.data, alignment);
    RoomMeansRoom(b, size, alignment);
  }

  /** Handing out the end of block k's unused part. */
  lemma PlaceKeeps(bs: seq<Block>, spans: seq<Span>, k: nat, a: Span)
    requires Sound(bs, spans) && k < |bs|
    requires bs[k].data + bs[k].used <= a.start && a.start + a.size <= bs[k].data + bs[k].capacity
    ensures Sound(bs[k := bs[k].(used := a.start + a.size - bs[k].data)], spans + [a])
  {
    var bs' := bs[k := bs[k].(used := a.start + a.size - bs[k].data)];
    forall i | 0 <= i < |spans|
      ensures Inside(bs', spans[i]) && Apart(spans[i].start, spans[i].size, a.start, a.size)
    {
      assert Inside(bs, spans[i]);
      var j :| 0 <= j < |bs| && Contains(bs[j], spans[i]);
      assert Contains(bs'[j], spans[i]);
      assert BlockOk(bs[j]);
    }
    assert BlockOk(bs[k]);
    assert Contains(bs'[k], a);
  }

  lemma AddKeeps(bs: seq<Block>, spans: seq<Span>, b: Block)
    requires Sound(bs, spans) && BlockOk(b) && MallocAnswer(bs, b.data, b.capacity)
    ensures Sound(bs + [b], spans)
  {
    var bs' := bs + [b];
    forall i | 0 <= i < |spans| ensures Inside(bs', spans[i]) {
      assert Inside(bs, spans[i]);
      var j :| 0 <= j < |bs| && Contains(bs[j], spans[i]);
      assert Contains(bs'[j], spans[i]);
    }
  }

  lemma SoundBlock(bs: seq<Block>, spans: seq<Span>, k: nat)
    requires Sound(bs, spans) && k < |bs|
    ensures BlockOk(bs[k])
  {}

  /** The first block alone, unused. */
  lemma FirstKeeps(bs: seq<Block>, spans: seq<Span>)
    requires Sound(bs, spans)
    ensures Sound(if bs == [] then [] else [bs[0].(used := 0)], []) && Sound([], [])
  {
    if bs != [] { assert BlockOk(bs[0]); }
  }

  /** How many blocks start at x. */
  function Count(bs: seq<Block>, x: nat): nat {
    if bs == [] then 0 else Count(bs[..|bs| - 1], x) + if bs[|bs| - 1].data == x then 1 else 0
  }

  lemma CountAdd(bs: seq<Block>, b: Block, x: nat)
    ensures Count(bs + [b], x) == Count(bs, x) + if b.data == x then 1 else 0
  {
    assert (bs + [b])[..|bs|] == bs;
  }

  lemma {:induction false} CountUsed(bs: seq<Block>, k: nat, used: nat, x: nat)
    requires k < |bs|
    ensures Count(bs[k := bs[k].(used := used)], x) == Count(bs, x)
  {
    var bs' := bs[k := bs[k].(used := used)];
    if k == |bs| - 1 {
      assert bs'[..|bs| - 1] == bs[..|bs| - 1];
    } else {
      CountUsed(bs[..|bs| - 1], k, used, x);
      assert bs'[..|bs| - 1] == bs[..|bs| - 1][k := bs[k].(used := used)];
    }
  }

  lemma {:induction false} CountConcat(a: seq<Block>, b: seq<Block>, x: nat)
    ensures Count(a + b, x) == Count(a, x) + Count(b, x)
  {
    if b == [] {
      assert a + b == a;
    } else {
      CountConcat(a, b[..|b| - 1], x);
      assert (a + b)[..|a + b| - 1] == a + b[..|b| - 1];
    }
  }

  /** The count with one more at p. */
  ghost function OneMore(count: nat -> nat, p: nat): nat -> nat {
    x => count(x) + if x == p then 1 else 0
  }

  /** Every address was obtained from malloc as often as it was freed or is still owned. */
  ghost predicate Balanced(malloced: nat -> nat, freed: nat -> nat, bs: seq<Block>) {
    forall x: nat {:trigger malloced(x)} {:trigger Count(bs, x)} :: malloced(x) == freed(x) + Count(bs, x)
  }

  /** freed is before plus one for every block of bs. */
  ghost predicate FreedAll(before: nat -> nat, freed: nat -> nat, bs: seq<Block>) {
    forall x: nat {:trigger freed(x)} :: freed(x) == before(x) + Count(bs, x)
  }

  lemma FreedNone(before: nat -> nat, bs: seq<Block>)
    requires bs == []
    ensures FreedAll(before, before, bs)
  {
    forall x: nat {:trigger Count(bs, x)} ensures Count(bs, x) == 0 {}
    assert forall x: nat {:trigger before(x)} :: before(x) == before(x) + Count(bs, x);
  }

  lemma FreeNext(before: nat -> nat, freed: nat -> nat, bs: seq<Block>, lo: nat, i: nat)
    requires lo <= i < |bs| && FreedAll(before, freed, bs[lo..i])
    ensures FreedAll(before, OneMore(freed, bs[i].data), bs[lo..i + 1])
  {
    assert bs[lo..i + 1] == bs[lo..i] + [bs[i]];
    forall x: nat ensures OneMore(freed, bs[i].data)(x) == before(x) + Count(bs[lo..i + 1], x) {
      CountAdd(bs[lo..i], bs[i], x);
    }
  }

  lemma BalancedAdd(malloced: nat -> nat, freed: nat -> nat, bs: seq<Block>, b: Block)
    requires Balanced(malloced, freed, bs)
    ensures Balanced(OneMore(malloced, b.data), freed, bs + [b])
  {
    forall x: nat ensures OneMore(malloced, b.data)(x) == freed(x) + Count(bs + [b], x) { CountAdd(bs, b, x); }
  }

  lemma BalancedUsed(malloced: nat -> nat, freed: nat -> nat, bs: seq<Block>, k: nat, used: nat)
    requires Balanced(malloced, freed, bs) && k < |bs|
    ensures Balanced(malloced, freed, bs[k := bs[k].(used := used)])
  {
    forall x: nat ensures Count(bs[k := bs[k].(used := used)], x) == Count(bs, x) { CountUsed(bs, k, used, x); }
  }

  lemma BalancedRest(malloced: nat -> nat, before: nat -> nat, freed: nat -> nat, bs: seq<Block>, k: nat)
    requires Balanced(malloced, before, bs) && k <= |bs| && FreedAll(before, freed, bs[k..])
    ensures Balanced(malloced, freed, bs[..k])
  {
    assert bs == bs[..k] + bs[k..];
    forall x: nat ensures Count(bs, x) == Count(bs[..k], x) + Count(bs[k..], x) { CountConcat(bs[..k], bs[k..], x); }
    forall x: nat {:trigger malloced(x)} ensures malloced(x) == freed(x) + Count(bs[..k], x) {
      assert malloced(x) == before(x) + Count(bs, x);
    }
  }

  // ---------------------------------------------------------------- totals

  function SumUsed(bs: seq<Block>): nat { if bs == [] then 0 else SumUsed(bs[..|bs| - 1]) + bs[|bs| - 1].used }

  function SumCapacity(bs: seq<Block>): nat { if bs == [] then 0 else SumCapacity(bs[..|bs| - 1]) + bs[|bs| - 1].capacity }

  /** The addresses from lo up to hi. */
  function Addresses(lo: nat, hi: nat): (r: set<nat>)
    ensures forall x :: x in r <==> lo <= x < hi
    decreases hi - lo
  {
    if hi <= lo then {} else Addresses(lo, hi - 1) + {hi - 1}
  }

  lemma {:induction false} AddressesCount(lo: nat, hi: nat)
    requires lo <= hi
    ensures |Addresses(lo, hi)| == hi - lo
    decreases hi - lo
  {
    if lo < hi { AddressesCount(lo, hi - 1); }
  }

  function Owned(bs: seq<Block>): set<nat> {
    if bs == [] then {} else Owned(bs[..|bs| - 1]) + Addresses(bs[|bs| - 1].data, bs[|bs| - 1].data + bs[|bs| - 1].capacity)
  }

  /** Blocks that do not overlap own as many addresses as their capacities add up to. */
  lemma {:induction false} OwnedCount(bs: seq<Block>)
    requires BlocksApart(bs) && forall k :: 0 <= k < |bs| ==> BlockOk(bs[k])
    ensures |Owned(bs)| == SumCapacity(bs) && Owned(bs) <= Addresses(0, WORD)
  {
    hide Addresses;
    if bs != [] {
      var init, b := bs[..|bs| - 1], bs[|bs| - 1];
      OwnedCount(init);
      AddressesCount(b.data, b.data + b.capacity);
      OwnedApart(init, b);
      assert BlockOk(b);
    }
  }

  lemma {:induction false} OwnedApart(bs: seq<Block>, b: Block)
    requires forall k :: 0 <= k < |bs| ==> Apart(bs[k].data, bs[k].capacity, b.data, b.capacity)
    ensures Owned(bs) !! Addresses(b.data, b.data + b.capacity)
  {
    if bs != [] {
      OwnedApart(bs[..|bs| - 1], b);
      assert Apart(bs[|bs| - 1].data, bs[|bs| - 1].capacity, b.data, b.capacity);
    }
  }

  lemma SubsetCount(a: set<nat>, b: set<nat>)
    requires a <= b
    ensures |a| <= |b|
  {
    assert b == a + (b - a);
  }

  lemma {:induction false} UsedAtMostCapacity(bs: seq<Block>)
    requires forall k :: 0 <= k < |bs| ==> BlockOk(bs[k])
    ensures SumUsed(bs) <= SumCapacity(bs)
  {
    if bs != [] {
      UsedAtMostCapacity(bs[..|bs| - 1]);
      assert BlockOk(bs[|bs| - 1]);
    }
  }

  /** The totals stay below the word size: blocks that do not overlap cannot add up to more than the address space. */
  lemma TotalsFit(bs: seq<Block>)
    requires BlocksApart(bs) && forall k :: 0 <= k < |bs| ==> BlockOk(bs[k])
    ensures SumUsed(bs) <= SumCapacity(bs) < WORD
  {
    hide Addresses;
    UsedAtMostCapacity(bs);
    OwnedCount(bs);
    AddressesCount(1, WORD);
    forall x | x in Owned(bs) ensures x in Addresses(1, WORD) { OwnedPositive(bs, x); }
    SubsetCount(Owned(bs), Addresses(1, WORD));
  }

  lemma {:induction false} OwnedPositive(bs: seq<Block>, x: nat)
    requires (forall k :: 0 <= k < |bs| ==> BlockOk(bs[k])) && x in Owned(bs)
    ensures 1 <= x < WORD
  {
    hide Addresses;
    if x in Owned(bs[..|bs| - 1]) {
      OwnedPositive(bs[..|bs| - 1], x);
    } else {
      assert BlockOk(bs[|bs| - 1]);
    }
  }

  lemma PrefixTotals(bs: seq<Block>, k: nat)
    requires BlocksApart(bs) && (forall j :: 0 <= j < |bs| ==> BlockOk(bs[j])) && k <= |bs|
    ensures SumUsed(bs[..k]) <= SumCapacity(bs[..k]) < WORD
  {
    TotalsFit(bs[..k]);
  }

  // ---------------------------------------------------------------- the allocator

  class TopoArena {
    var blocks: seq<Block>
    const defaultBlockSize: nat
    /** Memory handed out since the last reset. */
    ghost var spans: seq<Span>
    /** How often malloc returned an address, and how often it was freed. */
    ghost var malloced: nat -> nat
    ghost var freed: nat -> nat

    ghost predicate Valid()
      reads this
    {
      && 1 <= defaultBlockSize < WORD
      && Sound(blocks, spans)
      && Balanced(malloced, freed, blocks)
    }

    constructor (initialCapacity: nat, answer: nat)
      requires 1 <= initialCapacity < WORD && MallocAnswer([], answer, initialCapacity)
      ensures Valid() && defaultBlockSize == initialCapacity && spans == [] && forall x: nat {:trigger freed(x)} :: freed(x) == 0
      ensures blocks == if answer == 0 then [] else [Block(answer, initialCapacity, 0)]
    {
      defaultBlockSize := initialCapacity;
      blocks, spans, malloced, freed := [], [], x => 0, x => 0;
      new;
      var ok := AddBlock(initialCapacity, answer);
    }

    /** `answer` is what malloc returns. */
    method AddBlock(minSize: nat, answer: nat) returns (ok: bool)
      requires Valid() && MallocAnswer(blocks, answer, Max(minSize, defaultBlockSize))
      modifies this`blocks, this`malloced
      ensures Valid() && ok == (answer != 0)
      ensures blocks == if ok then old(blocks) + [Block(answer, Max(minSize, defaultBlockSize), 0)] else old(blocks)
    {
      hide Sound, Balanced, MallocAnswer, OneMore;
      var cap := if minSize > defaultBlockSize then minSize else defaultBlockSize;
      if answer == 0 { return false; }
      FreshBlock(blocks, answer, cap);
      AddKeeps(blocks, spans, Block(answer, cap, 0));
      BalancedAdd(malloced, freed, blocks, Block(answer, cap, 0));
      blocks := blocks + [Block(answer, cap, 0)];
      malloced := OneMore(malloced, answer);
      return true;
    }

    static lemma FreshBlock(bs: seq<Block>, answer: nat, capacity: nat)
      requires answer != 0 && MallocAnswer(bs, answer, capacity)
      ensures BlockOk(Block(answer, capacity, 0))
    {}

    /** A non-null result is memory of its own inside one block, aligned for a power of two; null changes nothing. */
    method Alloc(size: nat, alignment: nat, answer: nat) returns (r: nat)
      requires Valid() && 1 <= size < WORD && 1 <= alignment < WORD
      requires RequestAnswer(blocks, answer, size, alignment, defaultBlockSize)
      modifies this`blocks, this`spans, this`malloced
      ensures Valid()
      ensures |old(blocks)| > 0 ==> BlockOk(old(blocks)[|old(blocks)| - 1])
      ensures r == 0 <==> Denied(old(blocks), size, alignment, answer)
      ensures r == 0 <==> || |old(blocks)| == 0 || size + alignment >= WORD
                          || (answer == 0 && !HasRoom(old(blocks)[|old(blocks)| - 1], size, alignment))
      ensures r == 0 ==> blocks == old(blocks) && spans == old(spans)
      ensures r != 0 ==> spans == old(spans) + [Span(r, size)]
      ensures r != 0 && PowerOfTwo(alignment) ==> r % alignment == 0
      ensures r != 0 ==> |blocks| > 0 && r + size == blocks[|blocks| - 1].data + blocks[|blocks| - 1].used
      ensures r != 0 ==> var n := |old(blocks)|;
                         if HasRoom(old(blocks)[n - 1], size, alignment) then |blocks| == n && blocks[..n - 1] == old(blocks)[..n - 1]
                         else |blocks| == n + 1 && blocks[..n] == old(blocks) && blocks[n].data == answer
    {
      hide Sound, Balanced, MallocAnswer, MaskUp, PowerOfTwo, HasRoom;
      if |blocks| == 0 { return 0; }
      SoundBlock(blocks, spans, |blocks| - 1);
      if size > WORD - 1 - alignment { return 0; }

      if HasRoom(blocks[|blocks| - 1], size, alignment) {
        r := Bump(size, alignment);
        return;
      }

      var ok := AddBlock(size + alignment, answer);
      if !ok { return 0; }
      SoundBlock(blocks, spans, |blocks| - 1);
      NewBlockHasRoom(blocks[|blocks| - 1], size, alignment);
      if !HasRoom(blocks[|blocks| - 1], size, alignment) {
        assert false; // the defensive branch
      }
      r := Bump(size, alignment);
    }

    /** used += padding + size on the last block, which has room. */
    method Bump(size: nat, alignment: nat) returns (r: nat)
      requires Valid() && |blocks| > 0 && 1 <= size < WORD && 1 <= alignment < WORD && size + alignment < WORD
      requires BlockOk(blocks[|blocks| - 1]) && HasRoom(blocks[|blocks| - 1], size, alignment)
      modifies this`blocks, this`spans
      ensures Valid() && r != 0 && spans == old(spans) + [Span(r, size)]
      ensures |blocks| == |old(blocks)| && blocks[..|blocks| - 1] == old(blocks)[..|blocks| - 1]
      ensures blocks[|blocks| - 1].data == old(blocks)[|blocks| - 1].data
      ensures r + size == blocks[|blocks| - 1].data + blocks[|blocks| - 1].used
      ensures PowerOfTwo(alignment) ==> r % alignment == 0
    {
      hide Sound, Balanced, MaskUp, PowerOfTwo;
      var k := |blocks| - 1;
      var addr := blocks[k].data + blocks[k].used;
      RoomMeansRoom(blocks[k], size, alignment);
      AlignedIfPower(addr, alignment);
      r := MaskUp(addr, alignment);
      PlaceKeeps(blocks, spans, k, Span(r, size));
      BalancedUsed(malloced, freed, blocks, k, r + size - blocks[k].data);
      var padding := Padding(blocks[k], alignment);
      blocks := blocks[k := blocks[k].(used := blocks[k].used + padding + size)];
      spans := spans + [Span(r, size)];
    }

    static lemma AlignedIfPower(addr: nat, alignment: nat)
      requires addr < WORD && 1 <= alignment < WORD
      ensures PowerOfTwo(alignment) && addr <= MaskUp(addr, alignment) ==> MaskUp(addr, alignment) % alignment == 0
    {
      if PowerOfTwo(alignment) {
        var n :| 0 <= n < WIDTH && alignment == Pow2(n);
        if addr + alignment - 1 < WORD { MaskUpRounds(addr, n); } else { MaskUpWraps(addr, alignment); }
      }
    }

    /** Back to the first block, unused; the others are freed. */
    method Reset()
      requires Valid()
      modifies this`blocks, this`spans, this`freed
      ensures Valid() && spans == []
      ensures blocks == if |old(blocks)| == 0 then [] else [old(blocks)[0].(used := 0)]
    {
      hide Sound, Balanced, FreedAll, OneMore;
      FirstKeeps(blocks, spans);
      if |blocks| > 1 {
        FreeFrom(1);
        BalancedRest(malloced, old(freed), freed, blocks, 1);
        blocks := blocks[..1];
      }
      if |blocks| > 0 {
        BalancedUsed(malloced, freed, blocks, 0, 0);
        blocks := blocks[0 := blocks[0].(used := 0)];
        assert blocks == [old(blocks)[0].(used := 0)];
      }
      spans := [];
    }

    /** Free the blocks from index first on; they are still listed. */
    method FreeFrom(first: nat)
      requires first <= |blocks|
      modifies this`freed
      ensures FreedAll(old(freed), freed, blocks[first..])
    {
      hide OneMore;
      ghost var before := freed;
      var i := first;
      assert blocks[first..first] == [];
      FreedNone(before, blocks[first..first]);
      while i < |blocks|
        invariant first <= i <= |blocks|
        invariant FreedAll(before, freed, blocks[first..i])
      {
        FreeNext(before, freed, blocks, first, i);
        freed := OneMore(freed, blocks[i].data);
        i := i + 1;
      }
      assert blocks[first..i] == blocks[first..];
    }

    /** Everything malloced has been freed, each address as often as it was obtained. */
    method Destroy()
      requires Valid()
      modifies this`blocks, this`spans, this`freed
      ensures Valid() && blocks == [] && forall x: nat {:trigger malloced(x)} :: freed(x) == malloced(x)
    {
      hide Sound, FreedAll;
      FirstKeeps(blocks, spans);
      FreeFrom(0);
      BalancedRest(malloced, old(freed), freed, blocks, 0);
      assert blocks[0..] == blocks;
      blocks, spans := [], [];
    }

    /** The wrapping sum is the sum. */
    method BytesUsed() returns (total: nat)
      requires Valid()
      ensures total == SumUsed(blocks) <= SumCapacity(blocks)
    {
      total := 0;
      var i := 0;
      while i < |blocks|
        invariant 0 <= i <= |blocks| && total == SumUsed(blocks[..i])
      {
        PrefixTotals(blocks, i + 1);
        assert blocks[..i + 1][..i] == blocks[..i];
        total := (total + blocks[i].used) % WORD;
        i := i + 1;
      }
      assert blocks[..i] == blocks;
      TotalsFit(blocks);
    }

    method TotalCapacity() returns (total: nat)
      requires Valid()
      ensures total == SumCapacity(blocks)
    {
      total := 0;
      var i := 0;
      while i < |blocks|
        invariant 0 <= i <= |blocks| && total == SumCapacity(blocks[..i])
      {
        PrefixTotals(blocks, i + 1);
        assert blocks[..i + 1][..i] == blocks[..i];
        total := (total + blocks[i].capacity) % WORD;
        i := i + 1;
      }
      assert blocks[..i] == blocks;
    }
  }

  const MAX_ALIGN: nat := 16

  const DEFAULT_CAPACITY: nat := 4096

  /** The C entry point that makes an arena; zero asks for the default capacity. */
  method TopoArenaCreate(initialCapacity: nat, answer: nat) returns (arena: TopoArena)
    requires initialCapacity < WORD && MallocAnswer([], answer, if initialCapacity == 0 then DEFAULT_CAPACITY else initialCapacity)
    ensures fresh(arena) && arena.Valid() && arena.spans == []
    ensures arena.blocks == if answer == 0 then [] else [Block(answer, if initialCapacity == 0 then DEFAULT_CAPACITY else initialCapacity, 0)]
  {
    arena := new TopoArena(if initialCapacity == 0 then DEFAULT_CAPACITY else initialCapacity, answer);
  }

  /** The alignment a request is served with: zero asks for the default. */
  function Effective(alignment: nat): nat { if alignment == 0 then MAX_ALIGN else alignment }

  /** The C entry point: null exactly without an arena, for an empty request or for one the arena denies. */
  method TopoArenaAlloc(arena: TopoArena?, size: nat, alignment: nat, answer: nat) returns (r: nat)
    requires size < WORD && alignment < WORD
    requires arena != null ==> arena.Valid() && RequestAnswer(arena.blocks, answer, size, Effective(alignment), arena.defaultBlockSize)
    modifies if arena == null then {} else {arena}
    ensures arena != null ==> arena.Valid()
    ensures arena != null && |old(arena.blocks)| > 0 ==> BlockOk(old(arena.blocks)[|old(arena.blocks)| - 1])
    ensures r == 0 <==> arena == null || size == 0 || Denied(old(arena.blocks), size, Effective(alignment), answer)
    ensures arena != null && r == 0 ==> arena.blocks == old(arena.blocks) && arena.spans == old(arena.spans)
    ensures arena != null && r != 0 ==> arena.spans == old(arena.spans) + [Span(r, size)]
    ensures r != 0 && PowerOfTwo(Effective(alignment)) ==> r % Effective(alignment) == 0
    ensures r != 0 && alignment == 0 ==> r % 16 == 0
  {
    assert PowerOfTwo(16) by { assert Pow2(4) == 16; }
    hide Denied, HasRoom;
    if arena != null && |arena.blocks| > 0 { SoundBlock(arena.blocks, arena.spans, |arena.blocks| - 1); }
    if arena == null || size == 0 { return 0; }
    r := arena.Alloc(size, Effective(alignment), answer);
  }

  // ---------------------------------------------------------------- calloc

  /** The size requested and the number of bytes zeroed in place of calloc(count, elemSize). */
  function LoweredCalloc(count: nat, elemSize: nat): (r: (nat, nat))
    requires count < WORD && elemSize < WORD
  {
    var product := (count * elemSize) % WORD;
    if count * elemSize >= WORD then (WORD - 1, 0) else (product, product)
  }

  /**
    * The lowered calloc, on the arena its scope's global holds, which may be none: memory for the whole product, zeroed, or
    * null. Bytes are zeroed at null exactly if the product is neither empty nor overflows and there is no arena or the arena
    * denies it: for want of a block, of memory, or at the overflow guard.
    */
  method Calloc(arena: TopoArena?, count: nat, elemSize: nat, answer: nat) returns (r: nat, zeroed: nat)
    requires count < WORD && elemSize < WORD
    requires arena != null ==>
               arena.Valid() && RequestAnswer(arena.blocks, answer, LoweredCalloc(count, elemSize).0, MAX_ALIGN, arena.defaultBlockSize)
    modifies if arena == null then {} else {arena}
    ensures arena != null ==> arena.Valid()
    ensures arena != null && |old(arena.blocks)| > 0 ==> BlockOk(old(arena.blocks)[|old(arena.blocks)| - 1])
    ensures zeroed == if count * elemSize < WORD then count * elemSize else 0
    ensures r == 0 <==> count * elemSize == 0 || count * elemSize >= WORD || arena == null
                        || Denied(old(arena.blocks), count * elemSize, MAX_ALIGN, answer)
    ensures r == 0 && zeroed > 0 <==>
              0 < count * elemSize < WORD && (arena == null || Denied(old(arena.blocks), count * elemSize, MAX_ALIGN, answer))
    ensures arena != null && r == 0 ==> arena.blocks == old(arena.blocks) && arena.spans == old(arena.spans)
    ensures r != 0 ==> arena != null && arena.spans == old(arena.spans) + [Span(r, count * elemSize)] && r % MAX_ALIGN == 0
  {
    hide HasRoom;
    var size, bytes := LoweredCalloc(count, elemSize).0, LoweredCalloc(count, elemSize).1;
    CallocSizes(count, elemSize);
    r := TopoArenaAlloc(arena, size, MAX_ALIGN, answer);
    assert PowerOfTwo(MAX_ALIGN) by { assert Pow2(4) == MAX_ALIGN; }
    zeroed := bytes;
  }

  /** One array of 2^64 - 1 bytes: the product does not overflow, every arena denies it, and that many bytes are zeroed at null. */
  method CallocZeroesAtNull(arena: TopoArena, answer: nat) returns (r: nat, zeroed: nat)
    requires arena.Valid()
    modifies arena
    ensures r == 0 && zeroed == WORD - 1
  {
    CallocSizes(WORD - 1, 1);
    r, zeroed := Calloc(arena, WORD - 1, 1, answer);
  }

  /** A calloc that runs before its scope has stored an arena zeroes what it asks for at null. */
  method CallocWithoutArena(count: nat, elemSize: nat, answer: nat) returns (r: nat, zeroed: nat)
    requires count < WORD && elemSize < WORD && count * elemSize < WORD
    ensures r == 0 && zeroed == count * elemSize
  {
    r, zeroed := Calloc(null, count, elemSize, answer);
  }

  /** The request is never smaller than the product, and an overflowing one is one the allocator must refuse. */
  lemma CallocSizes(count: nat, elemSize: nat)
    requires count < WORD && elemSize < WORD
    ensures
      var (size, bytes) := LoweredCalloc(count, elemSize);
      && bytes <= size < WORD
      && (count * elemSize < WORD ==> size == bytes == count * elemSize)
      && (count * elemSize >= WORD ==> size + MAX_ALIGN >= WORD && bytes == 0)
  {
    if count * elemSize < WORD { DivMod(count * elemSize, WORD, 0, count * elemSize); }
  }
}
