/** How the loop partitioner cuts the iteration space [0, n): trip count, number of parts and their bounds, in 64-bit words. */
module PartitionRanges {
  import opened Options
  import opened Words

  datatype Strategy = Static | Dynamic

  /** The w-bit word x read as a signed number. */
  function Signed(w: nat, x: nat): int
    requires w > 0
  {
    if x < Pow2(w - 1) then x else x - Pow2(w)
  }

  /**
    * How often the body runs, from the back-edge count (a w-bit word) and the header trip count when that is known;
    * None leaves the loop serial.
    */
  function TripCount(headerTrip: nat, backedges: nat, w: nat, bottomTested: bool): Option<nat>
    requires 1 <= w <= 64
  {
    if headerTrip > 0 then
      var body := if bottomTested then headerTrip else headerTrip - 1;
      if body <= 0 then None else Some(body)
    else
      var btc := Signed(w, backedges);
      var body := if bottomTested then Signed(64, (btc + 1) % WORD) else btc;
      if body <= 0 then None else Some(body)
  }

  /** A count that is used is the number of times the body runs, and a count is refused only when that is zero or not a positive signed word. */
  lemma TripCountExact(headerTrip: nat, backedges: nat, w: nat, bottomTested: bool)
    requires 1 <= w <= 64 && backedges < Pow2(w)
    requires headerTrip == 0 || (headerTrip == backedges + 1 && headerTrip < 0x1_0000_0000)
    ensures
      var runs := backedges + if bottomTested then 1 else 0;
      match TripCount(headerTrip, backedges, w, bottomTested)
      case Some(n) => n == runs && 1 <= n < SIGNED_LIMIT
      case None => runs == 0 || (headerTrip == 0 && (backedges >= Pow2(w - 1) || runs == SIGNED_LIMIT))
  {
    WordSize();
    PowGrows(w - 1, 63);
    if headerTrip == 0 {
      var btc := Signed(w, backedges);
      if 0 <= btc + 1 {
        DivMod(btc + 1, WORD, 0, btc + 1);
      } else {
        DivMod(btc + 1, WORD, -1, btc + 1 + WORD);
      }
    }
  }

  lemma {:induction false} PowGrows(a: nat, b: nat)
    requires a <= b
    ensures Pow2(a) <= Pow2(b)
  {
    if a < b { PowGrows(a, b - 1); }
  }

  // ---------------------------------------------------------------- the parts

  function MaxPartitions(strategy: Strategy): nat {
    if strategy.Static? then 16 else 16 * 4
  }

  function NumParts(n: nat, chunk: nat, strategy: Strategy): nat
    requires chunk > 0
  {
    var raw := n / chunk;
    var clamped := if raw < 1 then 1 else raw;
    if clamped > MaxPartitions(strategy) then MaxPartitions(strategy) else clamped
  }

  /** The slices cover [0, n) in order, without gap or overlap, and none is empty. */
  predicate Tiles(n: nat, starts: seq<nat>, ends: seq<nat>) {
    && |starts| == |ends| > 0
    && starts[0] == 0
    && ends[|ends| - 1] == n
    && (forall p :: 0 <= p < |starts| ==> starts[p] < ends[p] <= n)
    && (forall p :: 0 <= p < |starts| - 1 ==> ends[p] == starts[p + 1])
  }

  lemma MulMono(p: nat, q: nat, k: nat)
    requires p <= q
    ensures p * k <= q * k
  {
    assert q * k == p * k + (q - p) * k;
  }

  lemma QuotientAtMost(n: nat, d: nat)
    requires d > 0
    ensures n / d <= n && d * (n / d) <= n
  {
    var q, r := n / d, n % d;
    assert n == d * q + r;
    MulMono(1, d, q);
  }

  lemma QuotientPositive(n: nat, d: nat)
    requires 0 < d <= n
    ensures n / d >= 1
  {
    var q, r := n / d, n % d;
    assert n == d * q + r;
  }

  /** The number of parts and the part size: neither is zero, and the parts fit. */
  lemma PartSizes(n: nat, chunk: nat, strategy: Strategy)
    requires n >= 1 && chunk > 0
    ensures 1 <= NumParts(n, chunk, strategy) <= n
    ensures n / NumParts(n, chunk, strategy) >= 1 && NumParts(n, chunk, strategy) * (n / NumParts(n, chunk, strategy)) <= n
  {
    QuotientAtMost(n, chunk);
    var parts := NumParts(n, chunk, strategy);
    QuotientAtMost(n, parts);
    QuotientPositive(n, parts);
  }

  /** As many parts as there may be, if each of several is to have a chunk of iterations. */
  lemma PartCount(n: nat, chunk: nat, strategy: Strategy)
    requires n >= 1 && chunk > 0
    ensures
      var parts := NumParts(n, chunk, strategy);
      && parts <= MaxPartitions(strategy)
      && (parts == 1 || parts * chunk <= n)
      && (parts == MaxPartitions(strategy) || n < (parts + 1) * chunk)
  {
    var raw, parts := n / chunk, NumParts(n, chunk, strategy);
    assert n == chunk * raw + n % chunk;
    assert (raw + 1) * chunk == chunk * raw + chunk;
    MulMono(parts, if parts <= raw then raw else parts, chunk);
    assert raw * chunk == chunk * raw;
    MulMono(raw + 1, if raw <= parts then parts + 1 else raw + 1, chunk);
  }

  /** No bound of a part wraps. */
  lemma PartBounds(n: nat, parts: nat, size: nat, p: nat)
    requires p < parts && parts * size <= n < WORD && size >= 1
    ensures p * size < (p + 1) * size <= n
    ensures (p * size) % WORD == p * size && ((p + 1) * size) % WORD == (p + 1) * size
  {
    MulMono(p + 1, parts, size);
    assert (p + 1) * size == p * size + size;
    DivMod(p * size, WORD, 0, p * size);
    DivMod((p + 1) * size, WORD, 0, (p + 1) * size);
  }

  /** The spawn loop: the bounds stored in the argument records, computed in wrapping 64-bit arithmetic. */
  method SpawnRanges(n: nat, chunk: nat, strategy: Strategy) returns (starts: seq<nat>, ends: seq<nat>)
    requires 1 <= n < SIGNED_LIMIT && chunk > 0
    ensures Tiles(n, starts, ends)
    ensures |starts| <= if strategy.Static? then 16 else 64
    ensures |starts| == 1 || |starts| * chunk <= n
    ensures |starts| == (if strategy.Static? then 16 else 64) || n < (|starts| + 1) * chunk
    ensures forall p :: 0 <= p < |starts| - 1 ==> ends[p] - starts[p] == n / |starts|
  {
    var parts := NumParts(n, chunk, strategy);
    var size := n / parts;
    PartSizes(n, chunk, strategy);
    PartCount(n, chunk, strategy);
    assert 1 <= parts && 1 <= size && parts * size <= n;
    starts, ends := SpawnLoop(n, parts, size);
  }

  method SpawnLoop(n: nat, parts: nat, size: nat) returns (starts: seq<nat>, ends: seq<nat>)
    requires 1 <= parts <= 64 && 1 <= size && parts * size <= n < SIGNED_LIMIT
    ensures |starts| == parts && Tiles(n, starts, ends)
    ensures forall k {:trigger starts[k]} {:trigger ends[k]} :: 0 <= k < parts - 1 ==> ends[k] - starts[k] == size
  {
    starts, ends := [], [];
    var p := 0;
    while p < parts
      invariant 0 <= p <= parts && |starts| == |ends| == p
      invariant p > 0 ==> starts[0] == 0
      invariant p > 0 ==> ends[p - 1] == if p == parts then n else p * size
      invariant forall k {:trigger starts[k]} {:trigger ends[k]} :: 0 <= k < p ==> starts[k] < ends[k] <= n
      invariant forall k {:trigger starts[k]} {:trigger ends[k]} :: 0 <= k < p && k < parts - 1 ==> ends[k] - starts[k] == size
      invariant forall k {:trigger starts[k + 1]} {:trigger ends[k]} :: 0 <= k < p - 1 ==> ends[k] == starts[k + 1]
    {
      var next := (p + 1) % WORD;
      PartBounds(n, parts, size, p);
      var start := (p * size) % WORD;
      var end := if next == parts then n else (next * size) % WORD;
      assert (p + 1) * size - p * size == size;
      assert start == p * size && end == if p + 1 == parts then n else (p + 1) * size;
      starts := starts + [start];
      ends := ends + [end];
      p := next;
    }
  }
}
