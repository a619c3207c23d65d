/** Reinterpreting an array of structs in place as a struct of columns: the layout fits, and every access keeps its meaning. */
module SoaLayout {
  import opened Words

  /** A field by its allocation size, a multiple of its alignment, a power of two. */
  datatype Field = Field(size: nat, alignLog: nat) {
    function Align(): nat { Pow2(alignLog) }

    predicate Valid() { size % Align() == 0 }
  }

  predicate ValidFields(fields: seq<Field>) {
    forall f :: 0 <= f < |fields| ==> fields[f].Valid()
  }

  /** x rounded up to a multiple of m. */
  function AlignUp(x: nat, m: nat): nat
    requires m > 0
  {
    (x + m - 1) / m * m
  }

  /** Rounding up gives the least multiple that is not smaller. */
  lemma AlignUpLeast(x: nat, m: nat, y: nat)
    requires m > 0 && y % m == 0 && x <= y
    ensures x <= AlignUp(x, m) <= y && AlignUp(x, m) % m == 0
  {
    AlignUpBounds(x, m);
    var k, j := (x + m - 1) / m, y / m;
    assert y == m * j && AlignUp(x, m) == k * m == m * k;
    NextMultiple(j, k, m);
    MulLe(if k <= j then k else j, j, m);
  }

  lemma NextMultiple(j: nat, k: nat, m: nat)
    ensures k > j ==> m * k >= m * j + m
  {
    if k > j {
      MulLe(j + 1, k, m);
      assert m * (j + 1) == m * j + m;
    }
  }

  lemma AlignUpBounds(x: nat, m: nat)
    requires m > 0
    ensures x <= AlignUp(x, m) < x + m && AlignUp(x, m) % m == 0
  {
    var k, r := (x + m - 1) / m, (x + m - 1) % m;
    assert x + m - 1 == m * k + r;
    assert k * m == m * k;
    DivMod(m * k, m, k, 0);
  }

  lemma MulLe(a: nat, b: nat, m: nat)
    requires a <= b
    ensures m * a <= m * b && a * m <= b * m
  {
    assert m * b == m * a + m * (b - a);
    assert a * m == m * a && b * m == m * b;
  }

  lemma MultipleSum(a: nat, b: nat, k: nat, m: nat)
    requires m > 0 && a % m == 0 && b % m == 0
    ensures (a + k * b) % m == 0
  {
    var p, q := a / m, b / m;
    assert a == m * p && b == m * q;
    assert k * b == m * (k * q) by { assert k * (m * q) == m * (k * q); }
    assert a + k * b == m * (p + k * q) by { assert m * (p + k * q) == m * p + m * (k * q); }
    DivMod(a + k * b, m, p + k * q, 0);
  }

  // ---------------------------------------------------------------- struct layout

  /** Offset of column f in the struct of columns of n elements each; with n = 1 that is the element struct itself. */
  function Offset(fields: seq<Field>, n: nat, f: nat): nat
    requires f < |fields|
    decreases f, 0
  {
    if f == 0 then 0 else AlignUp(End(fields, n, f - 1), fields[f].Align())
  }

  function End(fields: seq<Field>, n: nat, f: nat): nat
    requires f < |fields|
    decreases f, 1
  {
    Offset(fields, n, f) + n * fields[f].size
  }

  function MaxAlignLog(fields: seq<Field>): nat {
    if fields == [] then 0
    else
      var rest, last := MaxAlignLog(fields[..|fields| - 1]), fields[|fields| - 1].alignLog;
      if last > rest then last else rest
  }

  function StructSize(fields: seq<Field>, n: nat): nat {
    AlignUp(if fields == [] then 0 else End(fields, n, |fields| - 1), Pow2(MaxAlignLog(fields)))
  }

  function ElemSize(fields: seq<Field>): nat { StructSize(fields, 1) }

  lemma OffsetAligned(fields: seq<Field>, n: nat, f: nat)
    requires f < |fields|
    ensures Offset(fields, n, f) % fields[f].Align() == 0
  {
    if f == 0 {
      DivMod(0, fields[f].Align(), 0, 0);
    } else {
      AlignUpBounds(End(fields, n, f - 1), fields[f].Align());
    }
  }

  /** A column starts no later than n element structs reach the field. */
  lemma {:induction false} OffsetBound(fields: seq<Field>, n: nat, f: nat)
    requires ValidFields(fields) && f < |fields|
    ensures Offset(fields, n, f) <= n * Offset(fields, 1, f) && End(fields, n, f) <= n * End(fields, 1, f)
  {
    var s := fields[f].size;
    assert n * End(fields, 1, f) == n * Offset(fields, 1, f) + n * s by {
      assert n * (Offset(fields, 1, f) + s) == n * Offset(fields, 1, f) + n * s;
    }
    if f > 0 {
      OffsetBound(fields, n, f - 1);
      AlignUpBounds(End(fields, 1, f - 1), fields[f].Align());
      MulLe(End(fields, 1, f - 1), Offset(fields, 1, f), n);
      OffsetAligned(fields, 1, f);
      MultipleSum(0, Offset(fields, 1, f), n, fields[f].Align());
      AlignUpLeast(End(fields, n, f - 1), fields[f].Align(), n * Offset(fields, 1, f));
    }
  }

  /** The struct of columns fits where n elements were allocated. */
  lemma ColumnsFit(fields: seq<Field>, n: nat)
    requires ValidFields(fields)
    ensures StructSize(fields, n) <= n * ElemSize(fields)
  {
    var m := Pow2(MaxAlignLog(fields));
    var last := if fields == [] then 0 else End(fields, 1, |fields| - 1);
    if fields != [] { OffsetBound(fields, n, |fields| - 1); }
    AlignUpBounds(last, m);
    MulLe(last, ElemSize(fields), n);
    MultipleSum(0, ElemSize(fields), n, m);
    AlignUpLeast(if fields == [] then 0 else End(fields, n, |fields| - 1), m, n * ElemSize(fields));
  }

  /** Columns do not overlap and end inside the struct. */
  lemma {:induction false} ColumnsApart(fields: seq<Field>, n: nat, f: nat, g: nat)
    requires f <= g < |fields|
    ensures f < g ==> End(fields, n, f) <= Offset(fields, n, g)
    ensures End(fields, n, f) <= End(fields, n, g)
    decreases g
  {
    hide AlignUp;
    MulLe(0, n, fields[g].size);
    if f < g {
      ColumnsApart(fields, n, f, g - 1);
      AlignUpBounds(End(fields, n, g - 1), fields[g].Align());
    }
  }

  lemma ColumnInside(fields: seq<Field>, n: nat, f: nat)
    requires f < |fields|
    ensures End(fields, n, f) <= StructSize(fields, n)
  {
    ColumnsApart(fields, n, f, |fields| - 1);
    AlignUpBounds(End(fields, n, |fields| - 1), Pow2(MaxAlignLog(fields)));
  }

  // ---------------------------------------------------------------- addresses

  datatype Layout = ArrayOfStructs | StructOfArrays

  /** Where field f of element i lies, relative to the allocation. */
  function Address(l: Layout, fields: seq<Field>, n: nat, i: nat, f: nat): nat
    requires f < |fields|
  {
    match l
    case ArrayOfStructs => i * ElemSize(fields) + Offset(fields, 1, f)
    case StructOfArrays => Offset(fields, n, f) + i * fields[f].size
  }

  /** Elements of the array are whole structs apart; those of a column stand side by side, and the columns in field order. */
  lemma Strides(fields: seq<Field>, n: nat, i: nat, f: nat)
    requires f < |fields|
    ensures Address(ArrayOfStructs, fields, n, i + 1, f) == Address(ArrayOfStructs, fields, n, i, f) + ElemSize(fields)
    ensures Address(StructOfArrays, fields, n, i + 1, f) == Address(StructOfArrays, fields, n, i, f) + fields[f].size
    ensures Address(ArrayOfStructs, fields, n, 0, 0) == Address(StructOfArrays, fields, n, 0, 0) == 0
    ensures f + 1 < |fields| ==> Address(StructOfArrays, fields, n, n, f) <= Address(StructOfArrays, fields, n, 0, f + 1)
  {
    hide ElemSize;
    assert (i + 1) * ElemSize(fields) == i * ElemSize(fields) + ElemSize(fields);
    assert (i + 1) * fields[f].size == i * fields[f].size + fields[f].size;
    if f + 1 < |fields| { ColumnsApart(fields, n, f, f + 1); }
  }

  predicate Cell(fields: seq<Field>, n: nat, i: nat, f: nat) { i < n && f < |fields| }

  /** Both layouts keep every cell inside the n-element allocation. */
  lemma InBounds(l: Layout, fields: seq<Field>, n: nat, i: nat, f: nat)
    requires ValidFields(fields) && Cell(fields, n, i, f)
    ensures Address(l, fields, n, i, f) + fields[f].size <= n * ElemSize(fields)
  {
    var e, s := ElemSize(fields), fields[f].size;
    match l
    case ArrayOfStructs =>
      ColumnInside(fields, 1, f);
      MulLe(i + 1, n, e);
      assert (i + 1) * e == i * e + e && e * n == n * e;
    case StructOfArrays =>
      ColumnInside(fields, n, f);
      ColumnsFit(fields, n);
      MulLe(i + 1, n, s);
      assert (i + 1) * s == i * s + s;
  }

  /** Two cells never share a byte. */
  lemma Disjoint(l: Layout, fields: seq<Field>, n: nat, i: nat, f: nat, j: nat, g: nat)
    requires ValidFields(fields) && Cell(fields, n, i, f) && Cell(fields, n, j, g) && (i, f) != (j, g)
    ensures || Address(l, fields, n, i, f) + fields[f].size <= Address(l, fields, n, j, g)
            || Address(l, fields, n, j, g) + fields[g].size <= Address(l, fields, n, i, f)
  {
    hide ElemSize, Offset;
    match l
    case ArrayOfStructs =>
      if i == j {
        FieldsApart(fields, 1, f, g);
      } else if i < j {
        LaterElement(fields, i, f, j);
      } else {
        LaterElement(fields, j, g, i);
      }
    case StructOfArrays =>
      if f == g {
        LaterSlot(fields[f].size, i, j);
        LaterSlot(fields[f].size, j, i);
      } else {
        FieldsApart(fields, n, f, g);
        LaterSlot(fields[f].size, i, n);
        LaterSlot(fields[g].size, j, n);
      }
  }

  lemma FieldsApart(fields: seq<Field>, n: nat, f: nat, g: nat)
    requires f < |fields| && g < |fields| && f != g
    ensures || Offset(fields, n, f) + n * fields[f].size <= Offset(fields, n, g)
            || Offset(fields, n, g) + n * fields[g].size <= Offset(fields, n, f)
  {
    if f < g { ColumnsApart(fields, n, f, g); } else { ColumnsApart(fields, n, g, f); }
  }

  lemma LaterElement(fields: seq<Field>, i: nat, f: nat, j: nat)
    requires f < |fields| && i < j
    ensures i * ElemSize(fields) + Offset(fields, 1, f) + fields[f].size <= j * ElemSize(fields)
  {
    ColumnInside(fields, 1, f);
    LaterSlot(ElemSize(fields), i, j);
  }

  lemma LaterSlot(s: nat, i: nat, j: nat)
    ensures i < j ==> i * s + s <= j * s
  {
    if i < j {
      MulLe(i + 1, j, s);
      assert (i + 1) * s == i * s + s;
    }
  }

  lemma {:induction false} PowDivides(a: nat, b: nat)
    requires a <= b
    ensures Pow2(b) % Pow2(a) == 0
  {
    if a == b {
      DivMod(Pow2(b), Pow2(a), 1, 0);
    } else {
      PowDivides(a, b - 1);
      DivMod(0, Pow2(a), 0, 0);
      MultipleSum(0, Pow2(b - 1), 2, Pow2(a));
    }
  }

  lemma {:induction false} MaxAlignCovers(fields: seq<Field>, f: nat)
    requires f < |fields|
    ensures fields[f].alignLog <= MaxAlignLog(fields)
  {
    if f < |fields| - 1 { MaxAlignCovers(fields[..|fields| - 1], f); }
  }

  /** Places for the columns in field order, each aligned for its field and past the one before, in a size that keeps every field aligned. */
  ghost predicate Places(fields: seq<Field>, n: nat, at: seq<nat>, size: nat) {
    && |at| == |fields|
    && (forall f {:trigger at[f]} :: 0 <= f < |fields| ==>
          && at[f] % fields[f].Align() == 0 && at[f] + n * fields[f].size <= (if f + 1 < |fields| then at[f + 1] else size)
          && size % fields[f].Align() == 0)
  }

  lemma {:induction false} OffsetLeast(fields: seq<Field>, n: nat, at: seq<nat>, size: nat, f: nat)
    requires Places(fields, n, at, size) && f < |fields|
    ensures Offset(fields, n, f) <= at[f]
  {
    if f > 0 {
      OffsetLeast(fields, n, at, size, f - 1);
      assert at[f - 1] + n * fields[f - 1].size <= at[f];
      AlignUpLeast(End(fields, n, f - 1), fields[f].Align(), at[f]);
    }
  }

  /** The strictest alignment is that of some field. */
  lemma {:induction false} MaxAlignOf(fields: seq<Field>) returns (f: nat)
    requires fields != []
    ensures f < |fields| && fields[f].alignLog == MaxAlignLog(fields)
  {
    var init := fields[..|fields| - 1];
    f := |fields| - 1;
    if init != [] && MaxAlignLog(init) > fields[f].alignLog { f := MaxAlignOf(init); }
  }

  /** The struct is the smallest with its fields in this order, all aligned: no other puts a field earlier or takes less room. */
  lemma LayoutLeast(fields: seq<Field>, n: nat, at: seq<nat>, size: nat)
    requires Places(fields, n, at, size)
    ensures StructSize(fields, n) <= size && forall f :: 0 <= f < |fields| ==> Offset(fields, n, f) <= at[f]
  {
    forall f | 0 <= f < |fields| ensures Offset(fields, n, f) <= at[f] { OffsetLeast(fields, n, at, size, f); }
    if fields != [] {
      var f := MaxAlignOf(fields);
      assert at[f] % fields[f].Align() == 0;
      OffsetLeast(fields, n, at, size, |fields| - 1);
      assert at[|fields| - 1] + n * fields[|fields| - 1].size <= size;
      AlignUpLeast(End(fields, n, |fields| - 1), Pow2(MaxAlignLog(fields)), size);
    } else {
      AlignUpLeast(0, 1, 0);
    }
  }

  lemma PlaceRight(fields: seq<Field>, n: nat, f: nat)
    requires f < |fields|
    ensures Offset(fields, n, f) % fields[f].Align() == 0 && StructSize(fields, n) % fields[f].Align() == 0
    ensures Offset(fields, n, f) + n * fields[f].size <= if f + 1 < |fields| then Offset(fields, n, f + 1) else StructSize(fields, n)
  {
    OffsetAligned(fields, n, f);
    if f + 1 < |fields| { ColumnsApart(fields, n, f, f + 1); } else { ColumnInside(fields, n, f); }
    hide ElemSize, Offset;
    var m := Pow2(MaxAlignLog(fields));
    MaxAlignCovers(fields, f);
    PowDivides(fields[f].alignLog, MaxAlignLog(fields));
    AlignUpBounds(End(fields, n, |fields| - 1), m);
    MultipleOfMultiple(StructSize(fields, n), m, fields[f].Align());
  }

  /** And it is such a layout itself. */
  lemma LayoutPlaces(fields: seq<Field>, n: nat)
    ensures Places(fields, n, seq(|fields|, f requires 0 <= f < |fields| => Offset(fields, n, f)), StructSize(fields, n))
  {
    hide Offset, StructSize;
    forall f | 0 <= f < |fields|
      ensures Offset(fields, n, f) % fields[f].Align() == 0 && StructSize(fields, n) % fields[f].Align() == 0
      ensures Offset(fields, n, f) + n * fields[f].size <= if f + 1 < |fields| then Offset(fields, n, f + 1) else StructSize(fields, n)
    {
      PlaceRight(fields, n, f);
    }
  }

  /** Allocated at the element struct's alignment, every cell is aligned for its field in both layouts. */
  lemma Aligned(l: Layout, fields: seq<Field>, n: nat, base: nat, i: nat, f: nat)
    requires ValidFields(fields) && Cell(fields, n, i, f) && base % Pow2(MaxAlignLog(fields)) == 0
    ensures (base + Address(l, fields, n, i, f)) % fields[f].Align() == 0
  {
    var a, m := fields[f].Align(), Pow2(MaxAlignLog(fields));
    MaxAlignCovers(fields, f);
    PowDivides(fields[f].alignLog, MaxAlignLog(fields));
    MultipleOfMultiple(base, m, a);
    OffsetAligned(fields, n, f);
    OffsetAligned(fields, 1, f);
    match l
    case ArrayOfStructs =>
      AlignUpBounds(End(fields, 1, |fields| - 1), m);
      MultipleOfMultiple(ElemSize(fields), m, a);
      MultipleSum(Offset(fields, 1, f), ElemSize(fields), i, a);
      MultipleSum(base, Address(l, fields, n, i, f), 1, a);
    case StructOfArrays =>
      MultipleSum(Offset(fields, n, f), fields[f].size, i, a);
      MultipleSum(base, Address(l, fields, n, i, f), 1, a);
  }

  lemma MultipleOfMultiple(x: nat, m: nat, a: nat)
    requires m > 0 && a > 0 && x % m == 0 && m % a == 0
    ensures x % a == 0
  {
    assert x == m * (x / m);
    MultipleSum(0, m, x / m, a);
    assert x / m * m == m * (x / m);
  }

  // ---------------------------------------------------------------- accesses

  type Bytes = seq<bv8>

  type Memory = imap<nat, bv8>

  datatype Access = Read(elem: nat, field: nat) | Write(elem: nat, field: nat, bytes: Bytes)

  predicate ValidAccess(fields: seq<Field>, n: nat, a: Access) {
    Cell(fields, n, a.elem, a.field) && (a.Write? ==> |a.bytes| == fields[a.field].size)
  }

  ghost predicate Total(mem: Memory) { forall p: nat :: p in mem }

  ghost function Fetch(mem: Memory, p: nat, size: nat): (b: Bytes)
    requires Total(mem)
    ensures |b| == size
  {
    seq(size, k requires 0 <= k < size => mem[p + k])
  }

  ghost function Put(mem: Memory, p: nat, bytes: Bytes): (mem': Memory)
    requires Total(mem)
    ensures Total(mem')
  {
    imap q: nat {:trigger mem[q]} | true :: if p <= q < p + |bytes| then bytes[q - p] else mem[q]
  }

  /** What a run of accesses reads, and the memory it leaves. */
  ghost function Replay(l: Layout, fields: seq<Field>, n: nat, mem: Memory, accesses: seq<Access>): (r: (seq<Bytes>, Memory))
    requires Total(mem) && forall k :: 0 <= k < |accesses| ==> ValidAccess(fields, n, accesses[k])
    ensures Total(r.1)
  {
    if accesses == [] then ([], mem)
    else
      var r := Replay(l, fields, n, mem, accesses[..|accesses| - 1]);
      assert ValidAccess(fields, n, accesses[|accesses| - 1]);
      match accesses[|accesses| - 1]
      case Read(i, f) => (r.0 + [Fetch(r.1, Address(l, fields, n, i, f), fields[f].size)], r.1)
      case Write(i, f, b) => (r.0, Put(r.1, Address(l, fields, n, i, f), b))
  }

  ghost function CellBytes(l: Layout, fields: seq<Field>, n: nat, mem: Memory, i: nat, f: nat): Bytes
    requires Total(mem) && f < |fields|
  {
    Fetch(mem, Address(l, fields, n, i, f), fields[f].size)
  }

  /** The two memories hold the same array, one in each layout. */
  ghost predicate SameArray(fields: seq<Field>, n: nat, aos: Memory, soa: Memory)
    requires Total(aos) && Total(soa)
  {
    forall i, f {:trigger CellBytes(ArrayOfStructs, fields, n, aos, i, f)} :: Cell(fields, n, i, f) ==>
      CellBytes(ArrayOfStructs, fields, n, aos, i, f) == CellBytes(StructOfArrays, fields, n, soa, i, f)
  }

  /** A write sets its own cell and no other. */
  lemma PutCell(l: Layout, fields: seq<Field>, n: nat, mem: Memory, i: nat, f: nat, bytes: Bytes, j: nat, g: nat)
    requires ValidFields(fields) && Total(mem) && Cell(fields, n, i, f) && Cell(fields, n, j, g) && |bytes| == fields[f].size
    ensures CellBytes(l, fields, n, Put(mem, Address(l, fields, n, i, f), bytes), j, g)
         == if (i, f) == (j, g) then bytes else CellBytes(l, fields, n, mem, j, g)
  {
    hide Address;
    if (i, f) != (j, g) { Disjoint(l, fields, n, i, f, j, g); }
  }

  /** Any run of accesses reads the same in both layouts, and leaves the same array. */
  lemma {:induction false} ReplaySame(fields: seq<Field>, n: nat, aos: Memory, soa: Memory, accesses: seq<Access>)
    requires ValidFields(fields) && Total(aos) && Total(soa) && SameArray(fields, n, aos, soa)
    requires forall k :: 0 <= k < |accesses| ==> ValidAccess(fields, n, accesses[k])
    ensures
      var r, s := Replay(ArrayOfStructs, fields, n, aos, accesses), Replay(StructOfArrays, fields, n, soa, accesses);
      r.0 == s.0 && SameArray(fields, n, r.1, s.1)
  {
    hide Fetch, Put, Address, ValidFields;
    if accesses != [] {
      var last := accesses[|accesses| - 1];
      ReplaySame(fields, n, aos, soa, accesses[..|accesses| - 1]);
      var r := Replay(ArrayOfStructs, fields, n, aos, accesses[..|accesses| - 1]);
      var s := Replay(StructOfArrays, fields, n, soa, accesses[..|accesses| - 1]);
      assert ValidAccess(fields, n, last);
      match last
      case Read(i, f) => assert CellBytes(ArrayOfStructs, fields, n, r.1, i, f) == CellBytes(StructOfArrays, fields, n, s.1, i, f);
      case Write(i, f, b) => WriteSame(fields, n, r.1, s.1, i, f, b);
    }
  }

  lemma WriteSame(fields: seq<Field>, n: nat, aos: Memory, soa: Memory, i: nat, f: nat, b: Bytes)
    requires ValidFields(fields) && Total(aos) && Total(soa) && SameArray(fields, n, aos, soa)
    requires Cell(fields, n, i, f) && |b| == fields[f].size
    ensures SameArray(fields, n, Put(aos, Address(ArrayOfStructs, fields, n, i, f), b), Put(soa, Address(StructOfArrays, fields, n, i, f), b))
  {
    hide Fetch, Put, Address, ValidFields, CellBytes;
    var aos', soa' := Put(aos, Address(ArrayOfStructs, fields, n, i, f), b), Put(soa, Address(StructOfArrays, fields, n, i, f), b);
    forall j, g {:trigger CellBytes(ArrayOfStructs, fields, n, aos', j, g)} | Cell(fields, n, j, g)
      ensures CellBytes(ArrayOfStructs, fields, n, aos', j, g) == CellBytes(StructOfArrays, fields, n, soa', j, g)
    {
      PutCell(ArrayOfStructs, fields, n, aos, i, f, b, j, g);
      PutCell(StructOfArrays, fields, n, soa, i, f, b, j, g);
    }
  }

  /** An all-zero allocation is the same array in both layouts. */
  lemma ZeroedSame(fields: seq<Field>, n: nat, mem: Memory)
    requires Total(mem) && forall p :: p in mem ==> mem[p] == 0
    ensures SameArray(fields, n, mem, mem)
  {
    hide Address;
    forall i, f {:trigger CellBytes(ArrayOfStructs, fields, n, mem, i, f)} | Cell(fields, n, i, f)
      ensures CellBytes(ArrayOfStructs, fields, n, mem, i, f) == CellBytes(StructOfArrays, fields, n, mem, i, f)
    {}
  }

  /** The rewrite moves accesses but no data: all runs over one allocation read the same exactly when what it holds is the same array in both layouts. */
  lemma ReinterpretExactly(fields: seq<Field>, n: nat, mem: Memory)
    requires ValidFields(fields) && Total(mem)
    ensures
      (forall accesses {:trigger Replay(StructOfArrays, fields, n, mem, accesses)} :: (forall k :: 0 <= k < |accesses| ==> ValidAccess(fields, n, accesses[k])) ==>
         Replay(ArrayOfStructs, fields, n, mem, accesses).0 == Replay(StructOfArrays, fields, n, mem, accesses).0)
      <==> SameArray(fields, n, mem, mem)
  {
    hide Fetch, Put, Address, ValidFields;
    if SameArray(fields, n, mem, mem) {
      forall accesses {:trigger Replay(StructOfArrays, fields, n, mem, accesses)} | forall k :: 0 <= k < |accesses| ==> ValidAccess(fields, n, accesses[k])
        ensures Replay(ArrayOfStructs, fields, n, mem, accesses).0 == Replay(StructOfArrays, fields, n, mem, accesses).0
      {
        ReplaySame(fields, n, mem, mem, accesses);
      }
    } else {
      var i, f :| Cell(fields, n, i, f)
                  && CellBytes(ArrayOfStructs, fields, n, mem, i, f) != CellBytes(StructOfArrays, fields, n, mem, i, f);
      var accesses := [Read(i, f)];
      SingleRead(ArrayOfStructs, fields, n, mem, i, f);
      SingleRead(StructOfArrays, fields, n, mem, i, f);
      assert ValidAccess(fields, n, accesses[0]);
      assert Replay(ArrayOfStructs, fields, n, mem, accesses).0[0] != Replay(StructOfArrays, fields, n, mem, accesses).0[0];
    }
  }

  lemma SingleRead(l: Layout, fields: seq<Field>, n: nat, mem: Memory, i: nat, f: nat)
    requires Total(mem) && Cell(fields, n, i, f)
    ensures Replay(l, fields, n, mem, [Read(i, f)]).0 == [CellBytes(l, fields, n, mem, i, f)]
  {
    hide Fetch, Address;
    assert [Read(i, f)][..0] == [];
    assert Replay(l, fields, n, mem, []) == ([], mem);
  }

  /** So an allocation that starts all zero can always be read through the rewritten accesses. */
  lemma ZeroInitialised(fields: seq<Field>, n: nat, mem: Memory, accesses: seq<Access>)
    requires ValidFields(fields) && Total(mem) && forall p :: p in mem ==> mem[p] == 0
    requires forall k :: 0 <= k < |accesses| ==> ValidAccess(fields, n, accesses[k])
    ensures Replay(ArrayOfStructs, fields, n, mem, accesses).0 == Replay(StructOfArrays, fields, n, mem, accesses).0
  {
    ZeroedSame(fields, n, mem);
    ReinterpretExactly(fields, n, mem);
  }

  /** Two one-byte fields, and an initialiser that sets field 1 of element 0 only. */
  function TwoBytes(): seq<Field> { [Field(1, 0), Field(1, 0)] }

  ghost function Initialised(): (mem: Memory)
    ensures Total(mem)
  {
    imap p: nat | true :: InitialByte(p)
  }

  function InitialByte(p: nat): bv8 { if p == 1 then 1 else 0 }

  /** The rewritten read of that field finds byte 2 of the allocation, not byte 1. */
  lemma InitialisedMisread()
    ensures ValidFields(TwoBytes()) && ValidAccess(TwoBytes(), 2, Read(0, 1))
    ensures Replay(ArrayOfStructs, TwoBytes(), 2, Initialised(), [Read(0, 1)]).0 == [[1]]
    ensures Replay(StructOfArrays, TwoBytes(), 2, Initialised(), [Read(0, 1)]).0 == [[0]]
  {
    var fields := TwoBytes();
    assert Pow2(0) == 1;
    assert fields[0].Valid() && fields[1].Valid();
    assert Offset(fields, 1, 1) == 1 && Offset(fields, 2, 1) == 2;
    SingleRead(ArrayOfStructs, fields, 2, Initialised(), 0, 1);
    SingleRead(StructOfArrays, fields, 2, Initialised(), 0, 1);
    assert Fetch(Initialised(), 1, 1) == [1] && Fetch(Initialised(), 2, 1) == [0];
    assert Address(ArrayOfStructs, fields, 2, 0, 1) == 1 && Address(StructOfArrays, fields, 2, 0, 1) == 2;
  }
}
