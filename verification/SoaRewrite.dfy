/** Array-of-structs to struct-of-arrays inside one function: scatter at entry, rewritten accesses, gather before every return. */
module SoaRewrite {
  import opened Options

  /** Registers and everything else the body can see apart from the array. */
  type Env = map<nat, int>

  /**
    * Where a load or store points: a field of an element, an element itself (its field 0),
    * or, in rewritten code, a slot of a column. Indices are computed from the environment.
    */
  datatype Place =
    | FieldPtr(index: Env -> int, field: nat)
    | ElemPtr(index: Env -> int)
    | ColumnPtr(index: Env -> int, field: nat)

  /** `scalar` tells a load of integer or floating type from one of pointer type. Phis are copies in `Other` on the incoming edges. */
  datatype Instr =
    | Load(dst: nat, place: Place, scalar: bool)
    | Store(place: Place, value: Env -> int)
    | Other(effect: Env -> Env)

  datatype Terminator = Br(target: nat) | CondBr(cond: Env -> bool, yes: nat, no: nat) | Ret(result: Env -> int)

  datatype Block = Block(instrs: seq<Instr>, term: Terminator)

  /** The array with `fields` fields an element, and the heap columns by field. */
  datatype State = State(env: Env, arr: seq<seq<int>>, cols: map<nat, seq<int>>)

  predicate Shaped(arr: seq<seq<int>>, fields: nat) {
    forall i :: 0 <= i < |arr| ==> |arr[i]| == fields
  }

  // ---------------------------------------------------------------- running a body

  function ReadAt(s: State, p: Place): Option<int> {
    var i := p.index(s.env);
    match p
    case FieldPtr(_, f) => if 0 <= i < |s.arr| && f < |s.arr[i]| then Some(s.arr[i][f]) else None
    case ElemPtr(_) => if 0 <= i < |s.arr| && 0 < |s.arr[i]| then Some(s.arr[i][0]) else None
    case ColumnPtr(_, f) => if f in s.cols && 0 <= i < |s.cols[f]| then Some(s.cols[f][i]) else None
  }

  function SetCell(arr: seq<seq<int>>, i: nat, f: nat, v: int): seq<seq<int>>
    requires i < |arr| && f < |arr[i]|
  {
    arr[i := arr[i][f := v]]
  }

  function WriteAt(s: State, p: Place, v: int): Option<State> {
    var i := p.index(s.env);
    match p
    case FieldPtr(_, f) => if 0 <= i < |s.arr| && f < |s.arr[i]| then Some(s.(arr := SetCell(s.arr, i, f, v))) else None
    case ElemPtr(_) => if 0 <= i < |s.arr| && 0 < |s.arr[i]| then Some(s.(arr := SetCell(s.arr, i, 0, v))) else None
    case ColumnPtr(_, f) => if f in s.cols && 0 <= i < |s.cols[f]| then Some(s.(cols := s.cols[f := s.cols[f][i := v]])) else None
  }

  /** None is an access out of bounds. */
  function StepInstr(s: State, ins: Instr): Option<State> {
    match ins
    case Load(dst, p, _) => (match ReadAt(s, p) case Some(v) => Some(s.(env := s.env[dst := v])) case None => None)
    case Store(p, value) => WriteAt(s, p, value(s.env))
    case Other(effect) => Some(s.(env := effect(s.env)))
  }

  function StepInstrs(s: State, instrs: seq<Instr>): Option<State>
    decreases |instrs|
  {
    if instrs == [] then Some(s)
    else match StepInstr(s, instrs[0])
      case Some(s') => StepInstrs(s', instrs[1..])
      case None => None
  }

  /** `Running` is a run cut off after the given number of blocks; `Stuck` left the bounds or the function. */
  datatype Outcome = Running | Stuck | Returned(state: State, result: int)

  function RunBody(blocks: seq<Block>, s: State, b: nat, steps: nat): Outcome
    decreases steps
  {
    if steps == 0 then Running
    else if b >= |blocks| then Stuck
    else match StepInstrs(s, blocks[b].instrs)
      case None => Stuck
      case Some(s') =>
        match blocks[b].term
        case Br(t) => RunBody(blocks, s', t, steps - 1)
        case CondBr(c, y, n) => RunBody(blocks, s', if c(s'.env) then y else n, steps - 1)
        case Ret(result) => Returned(s', result(s'.env))
  }

  // ---------------------------------------------------------------- the rewrite

  /** The field of a recognised access: through a field pointer, or directly at an element by a store or a load of scalar type. */
  function Recognised(ins: Instr, fields: nat): Option<nat> {
    match ins
    case Load(_, FieldPtr(_, f), _) => if f < fields then Some(f) else None
    case Store(FieldPtr(_, f), _) => if f < fields then Some(f) else None
    case Load(_, ElemPtr(_), scalar) => if scalar then Some(0) else None
    case Store(ElemPtr(_), _) => Some(0)
    case _ => None
  }

  function RewriteInstr(ins: Instr, fields: nat): Instr {
    match Recognised(ins, fields)
    case None => ins
    case Some(f) =>
      match ins
      case Load(dst, p, scalar) => Load(dst, ColumnPtr(p.index, f), scalar)
      case Store(p, value) => Store(ColumnPtr(p.index, f), value)
      case Other(_) => ins
  }

  function RewriteInstrs(instrs: seq<Instr>, fields: nat): (r: seq<Instr>)
    ensures |r| == |instrs|
  {
    seq(|instrs|, k requires 0 <= k < |instrs| => RewriteInstr(instrs[k], fields))
  }

  function RewriteBody(blocks: seq<Block>, fields: nat): (r: seq<Block>)
    ensures |r| == |blocks|
  {
    seq(|blocks|, b requires 0 <= b < |blocks| => Block(RewriteInstrs(blocks[b].instrs, fields), blocks[b].term))
  }

  /** Fields some recognised access touches. */
  predicate Live(blocks: seq<Block>, fields: nat, f: nat) {
    exists b, k :: 0 <= b < |blocks| && 0 <= k < |blocks[b].instrs| && Recognised(blocks[b].instrs[k], fields) == Some(f)
  }

  /** A load or store at field f, through a field pointer or, for field 0, at the element itself; a pointer loaded off an element does not count. */
  predicate Touches(ins: Instr, fields: nat, f: nat) {
    && (ins.Load? || ins.Store?)
    && ((ins.place.FieldPtr? && ins.place.field == f < fields) || (ins.place.ElemPtr? && f == 0 && (ins.Load? ==> ins.scalar)))
  }

  lemma RecognisedExactly(ins: Instr, fields: nat, f: nat)
    ensures Recognised(ins, fields) == Some(f) <==> Touches(ins, fields, f)
  {}

  lemma LiveExactly(blocks: seq<Block>, fields: nat, f: nat)
    ensures Live(blocks, fields, f) <==> exists b, k :: 0 <= b < |blocks| && 0 <= k < |blocks[b].instrs| && Touches(blocks[b].instrs[k], fields, f)
  {
    forall b, k | 0 <= b < |blocks| && 0 <= k < |blocks[b].instrs|
      ensures Recognised(blocks[b].instrs[k], fields) == Some(f) <==> Touches(blocks[b].instrs[k], fields, f)
    {
      RecognisedExactly(blocks[b].instrs[k], fields, f);
    }
  }

  /** The scan over all instructions that collects the live fields. */
  method CollectLiveFields(blocks: seq<Block>, fields: nat) returns (live: set<nat>)
    ensures forall f :: f in live <==> Live(blocks, fields, f)
    ensures forall f :: f in live <==> exists b, k :: 0 <= b < |blocks| && 0 <= k < |blocks[b].instrs| && Touches(blocks[b].instrs[k], fields, f)
  {
    live := {};
    var b := 0;
    while b < |blocks|
      invariant 0 <= b <= |blocks|
      invariant forall f :: f in live <==> exists c, k :: 0 <= c < b && 0 <= k < |blocks[c].instrs| && Recognised(blocks[c].instrs[k], fields) == Some(f)
    {
      var k := 0;
      while k < |blocks[b].instrs|
        invariant 0 <= k <= |blocks[b].instrs|
        invariant forall f :: f in live <==>
                    || (exists c, j :: 0 <= c < b && 0 <= j < |blocks[c].instrs| && Recognised(blocks[c].instrs[j], fields) == Some(f))
                    || (exists j :: 0 <= j < k && Recognised(blocks[b].instrs[j], fields) == Some(f))
      {
        var field := Recognised(blocks[b].instrs[k], fields);
        if field.Some? { live := live + {field.value}; }
        k := k + 1;
      }
      b := b + 1;
    }
    forall f
      ensures Live(blocks, fields, f) <==> exists b, k :: 0 <= b < |blocks| && 0 <= k < |blocks[b].instrs| && Touches(blocks[b].instrs[k], fields, f)
    {
      LiveExactly(blocks, fields, f);
    }
  }

  // ---------------------------------------------------------------- scatter and gather

  function Column(arr: seq<seq<int>>, fields: nat, f: nat): (col: seq<int>)
    requires Shaped(arr, fields) && f < fields
    ensures |col| == |arr|
  {
    seq(|arr|, i requires 0 <= i < |arr| => arr[i][f])
  }

  function Scattered(arr: seq<seq<int>>, fields: nat, live: set<nat>): map<nat, seq<int>>
    requires Shaped(arr, fields) && forall f :: f in live ==> f < fields
  {
    map f | f in live :: Column(arr, fields, f)
  }

  predicate Columns(cols: map<nat, seq<int>>, n: nat, fields: nat) {
    forall f :: f in cols ==> f < fields && |cols[f]| == n
  }

  function Gathered(arr: seq<seq<int>>, fields: nat, cols: map<nat, seq<int>>): (r: seq<seq<int>>)
    requires Shaped(arr, fields) && Columns(cols, |arr|, fields)
    ensures |r| == |arr| && Shaped(r, fields)
    ensures forall i, f :: 0 <= i < |arr| && 0 <= f < fields ==> r[i][f] == if f in cols then cols[f][i] else arr[i][f]
  {
    seq(|arr|, i requires 0 <= i < |arr| => seq(fields, f requires 0 <= f < fields => if f in cols then cols[f][i] else arr[i][f]))
  }

  function Row(a: array2<int>, i: nat): (r: seq<int>)
    requires i < a.Length0
    reads a
    ensures |r| == a.Length1
  {
    seq(a.Length1, f requires 0 <= f < a.Length1 reads a => a[i, f])
  }

  function Rows(a: array2<int>): (r: seq<seq<int>>)
    reads a
    ensures |r| == a.Length0 && Shaped(r, a.Length1)
  {
    seq(a.Length0, i requires 0 <= i < a.Length0 reads a => Row(a, i))
  }

  /** The heap columns, one per live field, hold cols. */
  ghost predicate Holds(columns: array2<int>, live: seq<nat>, cols: map<nat, seq<int>>)
    reads columns
  {
    && columns.Length0 == |live|
    && (forall f :: f in cols <==> f in live)
    && forall c :: 0 <= c < |live| ==> cols[live[c]] == Row(columns, c)
  }

  /** The emitted scatter loop; its test comes after the body, so it needs an element to start with. */
  method Scatter(arr: array2<int>, live: seq<nat>, columns: array2<int>)
    requires arr.Length0 >= 1 && columns.Length0 == |live| && columns.Length1 == arr.Length0 && arr != columns
    requires forall c :: 0 <= c < |live| ==> live[c] < arr.Length1
    modifies columns
    ensures Holds(columns, live, Scattered(Rows(arr), arr.Length1, set f | f in live))
  {
    var i := 0;
    while true
      invariant 0 <= i < arr.Length0
      invariant forall c, j :: 0 <= c < |live| && 0 <= j < i ==> columns[c, j] == arr[j, live[c]]
      decreases arr.Length0 - i
    {
      var c := 0;
      while c < |live|
        invariant 0 <= c <= |live|
        invariant forall d, j :: 0 <= d < |live| && 0 <= j < i ==> columns[d, j] == arr[j, live[d]]
        invariant forall d :: 0 <= d < c ==> columns[d, i] == arr[i, live[d]]
      {
        columns[c, i] := arr[i, live[c]];
        c := c + 1;
      }
      i := i + 1;
      if i >= arr.Length0 { break; }
    }
  }

  /** The emitted gather loop: live fields come back, the others keep what the array has. */
  method Gather(arr: array2<int>, live: seq<nat>, columns: array2<int>, ghost cols: map<nat, seq<int>>)
    requires arr.Length0 >= 1 && columns.Length1 == arr.Length0 && arr != columns && Holds(columns, live, cols)
    requires forall c :: 0 <= c < |live| ==> live[c] < arr.Length1
    requires forall c, d :: 0 <= c < d < |live| ==> live[c] != live[d]
    modifies arr
    ensures Columns(cols, arr.Length0, arr.Length1) && Rows(arr) == Gathered(old(Rows(arr)), arr.Length1, cols)
  {
    var i := 0;
    while true
      invariant 0 <= i < arr.Length0
      invariant forall c, j :: 0 <= c < |live| && 0 <= j < i ==> arr[j, live[c]] == columns[c, j]
      invariant forall j, f :: 0 <= j < arr.Length0 && 0 <= f < arr.Length1 && f !in live ==> arr[j, f] == old(arr[j, f])
      decreases arr.Length0 - i
    {
      var c := 0;
      while c < |live|
        invariant 0 <= c <= |live|
        invariant forall d, j :: 0 <= d < |live| && 0 <= j < i ==> arr[j, live[d]] == columns[d, j]
        invariant forall d :: 0 <= d < c ==> arr[i, live[d]] == columns[d, i]
        invariant forall j, f :: 0 <= j < arr.Length0 && 0 <= f < arr.Length1 && f !in live ==> arr[j, f] == old(arr[j, f])
      {
        arr[i, live[c]] := columns[c, i];
        c := c + 1;
      }
      i := i + 1;
      if i >= arr.Length0 { break; }
    }
    ghost var before := old(Rows(arr));
    assert Columns(cols, arr.Length0, arr.Length1) by { HeldColumns(columns, live, cols, arr.Length1); }
    forall j, f | 0 <= j < arr.Length0 && 0 <= f < arr.Length1
      ensures Rows(arr)[j][f] == Gathered(before, arr.Length1, cols)[j][f]
    {
      if f in live {
        var c :| 0 <= c < |live| && live[c] == f;
        assert arr[j, live[c]] == columns[c, j] == cols[f][j];
      }
    }
    forall j | 0 <= j < arr.Length0 ensures Rows(arr)[j] == Gathered(before, arr.Length1, cols)[j] {}
  }

  lemma HeldColumns(columns: array2<int>, live: seq<nat>, cols: map<nat, seq<int>>, fields: nat)
    requires Holds(columns, live, cols) && forall c :: 0 <= c < |live| ==> live[c] < fields
    ensures Columns(cols, columns.Length1, fields)
  {
    forall f | f in cols ensures f < fields && |cols[f]| == columns.Length1 {
      var c :| 0 <= c < |live| && live[c] == f;
    }
  }

  // ---------------------------------------------------------------- the transformed function

  function LiveFields(blocks: seq<Block>, fields: nat): (live: set<nat>)
    requires fields > 0
    ensures forall f :: f in live <==> Live(blocks, fields, f)
  {
    set f | 0 <= f < fields && Live(blocks, fields, f)
  }

  /** What a call returns: the array it leaves, the rest of the state, and the result. */
  datatype Call = Cut | Failed | Value(arr: seq<seq<int>>, env: Env, result: int)

  function CallOriginal(blocks: seq<Block>, arr: seq<seq<int>>, env: Env, steps: nat): Call {
    match RunBody(blocks, State(env, arr, map[]), 0, steps)
    case Running => Cut
    case Stuck => Failed
    case Returned(s, result) => Value(s.arr, s.env, result)
  }

  function CallRewritten(blocks: seq<Block>, fields: nat, arr: seq<seq<int>>, env: Env, steps: nat): Call
    requires fields > 0 && Shaped(arr, fields)
  {
    match RunBody(RewriteBody(blocks, fields), State(env, arr, Scattered(arr, fields, LiveFields(blocks, fields))), 0, steps)
    case Running => Cut
    case Stuck => Failed
    case Returned(s, result) =>
      if Shaped(s.arr, fields) && Columns(s.cols, |s.arr|, fields) then Value(Gathered(s.arr, fields, s.cols), s.env, result) else Failed
  }

  // ---------------------------------------------------------------- what the caller must not do

  predicate RawLoad(ins: Instr) { ins.Load? && ins.place.ElemPtr? && !ins.scalar }

  predicate StoresFieldZero(ins: Instr, fields: nat) { ins.Store? && Recognised(ins, fields) == Some(0) }

  /** Every access is to the array. */
  predicate ToArray(ins: Instr) {
    (ins.Load? ==> !ins.place.ColumnPtr?) && (ins.Store? ==> !ins.place.ColumnPtr?)
  }

  predicate AllToArray(blocks: seq<Block>) {
    forall b, k :: 0 <= b < |blocks| && 0 <= k < |blocks[b].instrs| ==> ToArray(blocks[b].instrs[k])
  }

  predicate ZeroStored(blocks: seq<Block>, fields: nat) {
    exists b, k :: 0 <= b < |blocks| && 0 <= k < |blocks[b].instrs| && StoresFieldZero(blocks[b].instrs[k], fields)
  }

  /** A pointer-typed field 0 that is stored to is never read straight off its element. */
  predicate Rewritable(blocks: seq<Block>, fields: nat) {
    && AllToArray(blocks)
    && (ZeroStored(blocks, fields) ==>
          forall b, k :: 0 <= b < |blocks| && 0 <= k < |blocks[b].instrs| ==> !RawLoad(blocks[b].instrs[k]))
  }

  // ---------------------------------------------------------------- what a run computes, instruction by instruction

  /** A pointer loaded straight off an element is the one that was there on entry. */
  predicate FreshLoad(s: State, ins: Instr, entry: seq<seq<int>>) {
    RawLoad(ins) ==>
      var i := ins.place.index(s.env);
      0 <= i < |s.arr| && i < |entry| && 0 < |s.arr[i]| && 0 < |entry[i]| ==> s.arr[i][0] == entry[i][0]
  }

  predicate FreshInstrs(s: State, instrs: seq<Instr>, entry: seq<seq<int>>)
    decreases |instrs|
  {
    instrs != [] ==>
      && FreshLoad(s, instrs[0], entry)
      && match StepInstr(s, instrs[0]) case None => true case Some(s') => FreshInstrs(s', instrs[1..], entry)
  }

  /** Every such load executed in the first `steps` blocks is fresh. */
  predicate FreshRun(blocks: seq<Block>, s: State, entry: seq<seq<int>>, b: nat, steps: nat)
    decreases steps
  {
    steps > 0 && b < |blocks| ==>
      && FreshInstrs(s, blocks[b].instrs, entry)
      && match StepInstrs(s, blocks[b].instrs)
         case None => true
         case Some(s') =>
           match blocks[b].term
           case Br(t) => FreshRun(blocks, s', entry, t, steps - 1)
           case CondBr(c, y, n) => FreshRun(blocks, s', entry, if c(s'.env) then y else n, steps - 1)
           case Ret(_) => true
  }

  /** The environments after each instruction. */
  function InstrsTrace(s: State, instrs: seq<Instr>): seq<Env>
    decreases |instrs|
  {
    if instrs == [] then []
    else match StepInstr(s, instrs[0])
      case None => []
      case Some(s') => [s'.env] + InstrsTrace(s', instrs[1..])
  }

  function Trace(blocks: seq<Block>, s: State, b: nat, steps: nat): seq<Env>
    decreases steps
  {
    if steps == 0 || b >= |blocks| then []
    else
      InstrsTrace(s, blocks[b].instrs) +
        match StepInstrs(s, blocks[b].instrs)
        case None => []
        case Some(s') =>
          match blocks[b].term
          case Br(t) => Trace(blocks, s', t, steps - 1)
          case CondBr(c, y, n) => Trace(blocks, s', if c(s'.env) then y else n, steps - 1)
          case Ret(_) => []
  }

  /** The traces part: they have different entries somewhere. */
  ghost predicate Part(x: seq<Env>, y: seq<Env>) { exists k :: 0 <= k < |x| && k < |y| && x[k] != y[k] }

  lemma PartConcat(x: seq<Env>, y: seq<Env>, x': seq<Env>, y': seq<Env>)
    ensures Part(x, y) ==> Part(x + x', y + y')
    ensures x == y && Part(x', y') ==> Part(x + x', y + y')
  {
    if k :| 0 <= k < |x| && k < |y| && x[k] != y[k] {
      assert (x + x')[k] != (y + y')[k];
    }
    if x == y && Part(x', y') {
      var k :| 0 <= k < |x'| && k < |y'| && x'[k] != y'[k];
      assert (x + x')[|x| + k] != (y + y')[|x| + k];
    }
  }

  // ---------------------------------------------------------------- the simulation

  /** Original state s against rewritten state t: gathering t gives s, and the array itself is still the entry's. */
  predicate Related(s: State, t: State, entry: seq<seq<int>>, fields: nat, live: set<nat>) {
    && s.env == t.env && t.arr == entry
    && Shaped(t.arr, fields) && Columns(t.cols, |t.arr|, fields) && t.cols.Keys == live
    && s.arr == Gathered(t.arr, fields, t.cols)
  }

  lemma SetGathered(arr: seq<seq<int>>, fields: nat, cols: map<nat, seq<int>>, i: nat, f: nat, v: int)
    requires Shaped(arr, fields) && Columns(cols, |arr|, fields) && i < |arr| && f in cols
    ensures f < fields && Columns(cols[f := cols[f][i := v]], |arr|, fields)
    ensures SetCell(Gathered(arr, fields, cols), i, f, v) == Gathered(arr, fields, cols[f := cols[f][i := v]])
  {
    var a, b := SetCell(Gathered(arr, fields, cols), i, f, v), Gathered(arr, fields, cols[f := cols[f][i := v]]);
    forall j | 0 <= j < |arr| ensures a[j] == b[j] {}
  }

  /** One instruction: if it is no stale load the states stay related, and if it is their environments part. */
  lemma InstrSimulates(s: State, t: State, ins: Instr, entry: seq<seq<int>>, fields: nat, live: set<nat>)
    requires fields > 0 && Related(s, t, entry, fields, live) && ToArray(ins)
    requires Recognised(ins, fields).Some? ==> Recognised(ins, fields).value in live
    ensures
      match (StepInstr(s, ins), StepInstr(t, RewriteInstr(ins, fields)))
      case (Some(s'), Some(t')) => if FreshLoad(s, ins, entry) then Related(s', t', entry, fields, live) else s'.env != t'.env
      case (None, None) => FreshLoad(s, ins, entry)
      case _ => false
  {
    match ins
    case Load(dst, p, _) =>
      var q := RewriteInstr(ins, fields).place;
      if RawLoad(ins) {
        var i := p.index(s.env);
        if 0 <= i < |s.arr| && !FreshLoad(s, ins, entry) {
          assert s.env[dst := s.arr[i][0]][dst] != t.env[dst := entry[i][0]][dst];
        }
      } else {
        assert ReadAt(s, p) == ReadAt(t, q);
      }
    case Store(p, value) =>
      var i := p.index(s.env);
      if Recognised(ins, fields).Some? && 0 <= i < |t.arr| {
        SetGathered(t.arr, fields, t.cols, i, Recognised(ins, fields).value, value(s.env));
      }
    case Other(_) =>
  }

  lemma {:induction false} InstrsSimulate(s: State, t: State, instrs: seq<Instr>, entry: seq<seq<int>>, fields: nat, live: set<nat>)
    requires fields > 0 && Related(s, t, entry, fields, live)
    requires forall k {:trigger instrs[k]} :: 0 <= k < |instrs| ==>
               ToArray(instrs[k]) && (Recognised(instrs[k], fields).Some? ==> Recognised(instrs[k], fields).value in live)
    ensures FreshInstrs(s, instrs, entry) ==>
              && InstrsTrace(s, instrs) == InstrsTrace(t, RewriteInstrs(instrs, fields))
              && match (StepInstrs(s, instrs), StepInstrs(t, RewriteInstrs(instrs, fields)))
                 case (Some(s'), Some(t')) => Related(s', t', entry, fields, live)
                 case (None, None) => true
                 case _ => false
    ensures !FreshInstrs(s, instrs, entry) ==> Part(InstrsTrace(s, instrs), InstrsTrace(t, RewriteInstrs(instrs, fields)))
    decreases |instrs|
  {
    hide Related, ToArray, Recognised, StepInstr, RewriteInstr, FreshLoad, Part;
    if instrs != [] {
      InstrSimulates(s, t, instrs[0], entry, fields, live);
      assert RewriteInstrs(instrs, fields)[1..] == RewriteInstrs(instrs[1..], fields);
      match (StepInstr(s, instrs[0]), StepInstr(t, RewriteInstr(instrs[0], fields)))
      case (Some(s'), Some(t')) =>
        var x, y := InstrsTrace(s', instrs[1..]), InstrsTrace(t', RewriteInstrs(instrs[1..], fields));
        PartConcat([s'.env], [t'.env], x, y);
        if FreshLoad(s, instrs[0], entry) {
          InstrsSimulate(s', t', instrs[1..], entry, fields, live);
          SameEnv(s', t', entry, fields, live);
        } else {
          PartNow(s'.env, t'.env);
        }
      case _ =>
    }
  }

  lemma SameEnv(s: State, t: State, entry: seq<seq<int>>, fields: nat, live: set<nat>)
    requires Related(s, t, entry, fields, live)
    ensures s.env == t.env
  {}

  lemma PartNow(e: Env, e': Env)
    requires e != e'
    ensures Part([e], [e'])
  {
    assert [e][0] != [e'][0];
  }

  lemma BlockInstrs(blocks: seq<Block>, fields: nat, b: nat)
    requires fields > 0 && AllToArray(blocks) && b < |blocks|
    ensures forall k {:trigger blocks[b].instrs[k]} :: 0 <= k < |blocks[b].instrs| ==>
              && ToArray(blocks[b].instrs[k])
              && (Recognised(blocks[b].instrs[k], fields).Some? ==> Recognised(blocks[b].instrs[k], fields).value in LiveFields(blocks, fields))
  {
    hide Recognised, ToArray;
  }

  /** Block by block the two runs do the same, however many blocks are run, as long as no load is stale; at the first stale one they part. */
  lemma {:induction false} BodySimulates(blocks: seq<Block>, fields: nat, entry: seq<seq<int>>, s: State, t: State, b: nat, steps: nat)
    requires fields > 0 && AllToArray(blocks) && Related(s, t, entry, fields, LiveFields(blocks, fields))
    ensures FreshRun(blocks, s, entry, b, steps) ==>
              && Trace(blocks, s, b, steps) == Trace(RewriteBody(blocks, fields), t, b, steps)
              && match (RunBody(blocks, s, b, steps), RunBody(RewriteBody(blocks, fields), t, b, steps))
                 case (Returned(s', x), Returned(t', y)) => x == y && Related(s', t', entry, fields, LiveFields(blocks, fields))
                 case (Stuck, Stuck) => true
                 case (Running, Running) => true
                 case _ => false
    ensures !FreshRun(blocks, s, entry, b, steps) ==> Part(Trace(blocks, s, b, steps), Trace(RewriteBody(blocks, fields), t, b, steps))
    decreases steps
  {
    hide AllToArray, StepInstrs, InstrsTrace, FreshInstrs, LiveFields, Part, Related, Recognised, ToArray, RewriteInstrs;
    if steps > 0 && b < |blocks| {
      BlockInstrs(blocks, fields, b);
      InstrsSimulate(s, t, blocks[b].instrs, entry, fields, LiveFields(blocks, fields));
      var x, y := InstrsTrace(s, blocks[b].instrs), InstrsTrace(t, RewriteInstrs(blocks[b].instrs, fields));
      PartConcat(x, y, Trace(blocks, s, b, steps)[|x|..], Trace(RewriteBody(blocks, fields), t, b, steps)[|y|..]);
      assert Trace(blocks, s, b, steps) == x + Trace(blocks, s, b, steps)[|x|..];
      assert Trace(RewriteBody(blocks, fields), t, b, steps) == y + Trace(RewriteBody(blocks, fields), t, b, steps)[|y|..];
      if FreshInstrs(s, blocks[b].instrs, entry) {
        match (StepInstrs(s, blocks[b].instrs), StepInstrs(t, RewriteInstrs(blocks[b].instrs, fields)))
        case (Some(s'), Some(t')) =>
          SameEnv(s', t', entry, fields, LiveFields(blocks, fields));
          match blocks[b].term {
            case Br(target) => BodySimulates(blocks, fields, entry, s', t', target, steps - 1);
            case CondBr(c, yes, no) => BodySimulates(blocks, fields, entry, s', t', if c(s'.env) then yes else no, steps - 1);
            case Ret(_) =>
          }
        case _ =>
      }
    }
  }

  lemma ScatterRelates(arr: seq<seq<int>>, fields: nat, env: Env, live: set<nat>)
    requires Shaped(arr, fields) && forall f :: f in live ==> f < fields
    ensures Related(State(env, arr, map[]), State(env, arr, Scattered(arr, fields, live)), arr, fields, live)
  {
    var cols := Scattered(arr, fields, live);
    forall i | 0 <= i < |arr| ensures Gathered(arr, fields, cols)[i] == arr[i] {}
  }

  /**
    * For any body: the rewritten one computes what the original does, register for register, exactly as long as the original
    * loads no pointer straight off an element whose field 0 has changed since entry; and then the calls agree too.
    */
  lemma RewriteExactly(blocks: seq<Block>, fields: nat, arr: seq<seq<int>>, env: Env, steps: nat)
    requires fields > 0 && |arr| > 0 && Shaped(arr, fields) && AllToArray(blocks)
    ensures
      var s := State(env, arr, map[]);
      var t := State(env, arr, Scattered(arr, fields, LiveFields(blocks, fields)));
      && (Trace(RewriteBody(blocks, fields), t, 0, steps) == Trace(blocks, s, 0, steps) <==> FreshRun(blocks, s, arr, 0, steps))
      && (FreshRun(blocks, s, arr, 0, steps) ==> CallRewritten(blocks, fields, arr, env, steps) == CallOriginal(blocks, arr, env, steps))
  {
    hide AllToArray, RunBody, LiveFields, FreshRun, Trace;
    var live := LiveFields(blocks, fields);
    LiveInRange(blocks, fields);
    ScatterRelates(arr, fields, env, live);
    BodySimulates(blocks, fields, arr, State(env, arr, map[]), State(env, arr, Scattered(arr, fields, live)), 0, steps);
  }

  /** Every element's field 0 is what it was on entry. */
  predicate ZeroKept(arr: seq<seq<int>>, entry: seq<seq<int>>) {
    |arr| == |entry| && forall i :: 0 <= i < |arr| ==> |arr[i]| == |entry[i]| && (|arr[i]| > 0 ==> arr[i][0] == entry[i][0])
  }

  lemma {:induction false} ZeroKeptInstrs(s: State, instrs: seq<Instr>, entry: seq<seq<int>>, fields: nat)
    requires ZeroKept(s.arr, entry) && Shaped(entry, fields)
    requires forall k {:trigger instrs[k]} :: 0 <= k < |instrs| ==> ToArray(instrs[k]) && !StoresFieldZero(instrs[k], fields)
    ensures FreshInstrs(s, instrs, entry)
    ensures StepInstrs(s, instrs).Some? ==> ZeroKept(StepInstrs(s, instrs).value.arr, entry)
    decreases |instrs|
  {
    if instrs != [] {
      assert ToArray(instrs[0]);
      match StepInstr(s, instrs[0])
      case Some(s') => ZeroKeptInstrs(s', instrs[1..], entry, fields);
      case None =>
    }
  }

  lemma {:induction false} NoRawLoads(s: State, instrs: seq<Instr>, entry: seq<seq<int>>)
    requires forall k {:trigger instrs[k]} :: 0 <= k < |instrs| ==> !RawLoad(instrs[k])
    ensures FreshInstrs(s, instrs, entry)
    decreases |instrs|
  {
    if instrs != [] && StepInstr(s, instrs[0]).Some? { NoRawLoads(StepInstr(s, instrs[0]).value, instrs[1..], entry); }
  }

  /** A body without such loads, or without stores to field 0, never runs into a stale one. */
  lemma {:induction false} RewritableFresh(blocks: seq<Block>, fields: nat, entry: seq<seq<int>>, s: State, b: nat, steps: nat)
    requires Rewritable(blocks, fields) && Shaped(entry, fields) && (!ZeroStored(blocks, fields) ==> ZeroKept(s.arr, entry))
    ensures FreshRun(blocks, s, entry, b, steps)
    decreases steps
  {
    if steps > 0 && b < |blocks| {
      var instrs := blocks[b].instrs;
      if ZeroStored(blocks, fields) {
        NoRawLoads(s, instrs, entry);
      } else {
        ZeroKeptInstrs(s, instrs, entry, fields);
      }
      hide Rewritable, ZeroStored, StepInstrs, FreshInstrs, ZeroKept, Shaped;
      match StepInstrs(s, instrs)
      case Some(s') =>
        match blocks[b].term {
          case Br(target) => RewritableFresh(blocks, fields, entry, s', target, steps - 1);
          case CondBr(c, yes, no) => RewritableFresh(blocks, fields, entry, s', if c(s'.env) then yes else no, steps - 1);
          case Ret(_) =>
        }
      case None =>
    }
  }

  /** Scatter, rewritten body and gather give the original call's array, remaining state and result, or fail or run on where it does. */
  lemma RewritePreserves(blocks: seq<Block>, fields: nat, arr: seq<seq<int>>, env: Env, steps: nat)
    requires fields > 0 && |arr| > 0 && Shaped(arr, fields) && Rewritable(blocks, fields)
    ensures CallRewritten(blocks, fields, arr, env, steps) == CallOriginal(blocks, arr, env, steps)
  {
    hide RunBody, LiveFields, ZeroStored, FreshRun, Trace, CallRewritten, CallOriginal;
    RewritableFresh(blocks, fields, arr, State(env, arr, map[]), 0, steps);
    RewriteExactly(blocks, fields, arr, env, steps);
  }

  /** Stale loads or not, neither call changes a field that is not live. */
  lemma DeadFieldsUntouched(blocks: seq<Block>, fields: nat, arr: seq<seq<int>>, env: Env, steps: nat, i: nat, f: nat)
    requires fields > 0 && Shaped(arr, fields) && AllToArray(blocks) && i < |arr| && f < fields && !Live(blocks, fields, f)
    ensures
      var call := CallOriginal(blocks, arr, env, steps);
      call.Value? ==> |call.arr| == |arr| && Shaped(call.arr, fields) && call.arr[i][f] == arr[i][f]
    ensures
      var call := CallRewritten(blocks, fields, arr, env, steps);
      call.Value? ==> |call.arr| == |arr| && Shaped(call.arr, fields) && call.arr[i][f] == arr[i][f]
  {
    var live := LiveFields(blocks, fields);
    assert f !in live;
    hide AllToArray, RunBody, Live, LiveFields;
    DeadKept(blocks, fields, arr, State(env, arr, map[]), 0, steps, f);
    ArrayKept(blocks, fields, State(env, arr, Scattered(arr, fields, live)), 0, steps);
  }

  /** The rewritten body has its columns and no others, and leaves the array itself alone. */
  predicate SameArray(s: State, t: State) { t.arr == s.arr && t.cols.Keys == s.cols.Keys }

  lemma {:induction false} ArrayKept(blocks: seq<Block>, fields: nat, t: State, b: nat, steps: nat)
    requires AllToArray(blocks) && Shaped(t.arr, fields)
    ensures
      var run := RunBody(RewriteBody(blocks, fields), t, b, steps);
      run.Returned? ==> SameArray(t, run.state)
    decreases steps
  {
    if steps > 0 && b < |blocks| {
      ArrayKeptInstrs(t, blocks[b].instrs, fields);
      hide AllToArray, StepInstrs;
      match StepInstrs(t, RewriteInstrs(blocks[b].instrs, fields))
      case Some(t') =>
        match blocks[b].term {
          case Br(target) => ArrayKept(blocks, fields, t', target, steps - 1);
          case CondBr(c, yes, no) => ArrayKept(blocks, fields, t', if c(t'.env) then yes else no, steps - 1);
          case Ret(_) =>
        }
      case None =>
    }
  }

  lemma {:induction false} ArrayKeptInstrs(t: State, instrs: seq<Instr>, fields: nat)
    requires Shaped(t.arr, fields) && forall k {:trigger instrs[k]} :: 0 <= k < |instrs| ==> ToArray(instrs[k])
    ensures var t' := StepInstrs(t, RewriteInstrs(instrs, fields)); t'.Some? ==> SameArray(t, t'.value)
    decreases |instrs|
  {
    if instrs != [] {
      assert ToArray(instrs[0]);
      assert RewriteInstrs(instrs, fields)[1..] == RewriteInstrs(instrs[1..], fields);
      match StepInstr(t, RewriteInstr(instrs[0], fields))
      case Some(t') => ArrayKeptInstrs(t', instrs[1..], fields);
      case None =>
    }
  }

  /** Field f of every element is what it was on entry. */
  predicate FieldKept(arr: seq<seq<int>>, entry: seq<seq<int>>, fields: nat, f: nat) {
    |arr| == |entry| && forall i :: 0 <= i < |arr| ==> |arr[i]| == |entry[i]| == fields && (f < fields ==> arr[i][f] == entry[i][f])
  }

  lemma {:induction false} DeadKept(blocks: seq<Block>, fields: nat, entry: seq<seq<int>>, s: State, b: nat, steps: nat, f: nat)
    requires AllToArray(blocks) && FieldKept(s.arr, entry, fields, f) && !Live(blocks, fields, f)
    ensures RunBody(blocks, s, b, steps).Returned? ==> FieldKept(RunBody(blocks, s, b, steps).state.arr, entry, fields, f)
    decreases steps
  {
    if steps > 0 && b < |blocks| {
      DeadKeptInstrs(s, blocks[b].instrs, entry, fields, f);
      hide AllToArray, Live, StepInstrs, FieldKept;
      match StepInstrs(s, blocks[b].instrs)
      case Some(s') =>
        match blocks[b].term {
          case Br(target) => DeadKept(blocks, fields, entry, s', target, steps - 1, f);
          case CondBr(c, yes, no) => DeadKept(blocks, fields, entry, s', if c(s'.env) then yes else no, steps - 1, f);
          case Ret(_) =>
        }
      case None =>
    }
  }

  lemma {:induction false} DeadKeptInstrs(s: State, instrs: seq<Instr>, entry: seq<seq<int>>, fields: nat, f: nat)
    requires FieldKept(s.arr, entry, fields, f)
    requires forall k {:trigger instrs[k]} :: 0 <= k < |instrs| ==> ToArray(instrs[k]) && Recognised(instrs[k], fields) != Some(f)
    ensures StepInstrs(s, instrs).Some? ==> FieldKept(StepInstrs(s, instrs).value.arr, entry, fields, f)
    decreases |instrs|
  {
    if instrs != [] && StepInstr(s, instrs[0]).Some? {
      assert ToArray(instrs[0]);
      DeadKeptInstrs(StepInstr(s, instrs[0]).value, instrs[1..], entry, fields, f);
    }
  }

  lemma LiveInRange(blocks: seq<Block>, fields: nat)
    requires fields > 0
    ensures forall f :: f in LiveFields(blocks, fields) ==> f < fields
  {}

  // ---------------------------------------------------------------- the loads the rewrite overlooks

  /** Store to an element's field 0, then load a pointer straight off the same element and return it. */
  function StoreThenRawLoad(index: Env -> int, value: Env -> int): seq<Block> {
    [Block([Store(ElemPtr(index), value), Load(0, ElemPtr(index), false)], Ret((e: Env) => if 0 in e then e[0] else 0))]
  }

  lemma RunTwo(blocks: seq<Block>, s: State)
    requires |blocks| == 1 && |blocks[0].instrs| == 2 && blocks[0].term.Ret?
    ensures RunBody(blocks, s, 0, 1) ==
              match StepInstr(s, blocks[0].instrs[0])
              case None => Stuck
              case Some(s1) =>
                match StepInstr(s1, blocks[0].instrs[1])
                case None => Stuck
                case Some(s2) => Returned(s2, blocks[0].term.result(s2.env))
  {
    hide StepInstr;
    var instrs := blocks[0].instrs;
    assert instrs[1..][0] == instrs[1] && instrs[1..][1..] == [];
    match StepInstr(s, instrs[0]) {
      case None =>
      case Some(s1) =>
        assert StepInstrs(s1, instrs[1..]) == StepInstr(s1, instrs[1]) by {
          match StepInstr(s1, instrs[1])
          case None =>
          case Some(s2) => assert StepInstrs(s2, []) == Some(s2);
        }
    }
  }

  lemma StaleOriginal(index: Env -> int, value: Env -> int, fields: nat, arr: seq<seq<int>>, env: Env)
    requires fields > 0 && Shaped(arr, fields)
    ensures
      var i := index(env);
      CallOriginal(StoreThenRawLoad(index, value), arr, env, 1) ==
        if 0 <= i < |arr| then Value(SetCell(arr, i, 0, value(env)), env[0 := value(env)], value(env)) else Failed
  {
    var instrs, i := StoreThenRawLoad(index, value)[0].instrs, index(env);
    var s := State(env, arr, map[]);
    RunTwo(StoreThenRawLoad(index, value), s);
    if 0 <= i < |arr| {
      var s1 := s.(arr := SetCell(arr, i, 0, value(env)));
      assert StepInstr(s, instrs[0]) == Some(s1);
      assert StepInstr(s1, instrs[1]) == Some(s1.(env := env[0 := value(env)]));
    }
  }

  lemma StaleRewritten(index: Env -> int, value: Env -> int, fields: nat, arr: seq<seq<int>>, env: Env)
    requires fields > 0 && Shaped(arr, fields)
    ensures
      var i := index(env);
      var call := CallRewritten(StoreThenRawLoad(index, value), fields, arr, env, 1);
      if 0 <= i < |arr| then
        call.Value? && |call.arr| == |arr| && Shaped(call.arr, fields) && call.arr == SetCell(arr, i, 0, value(env))
        && call.env == env[0 := arr[i][0]] && call.result == arr[i][0]
      else call == Failed
  {
    var blocks := StoreThenRawLoad(index, value);
    var instrs, i, v := blocks[0].instrs, index(env), value(env);
    assert Recognised(instrs[0], fields) == Some(0) && Recognised(instrs[1], fields) == None;
    assert Live(blocks, fields, 0);
    var live := LiveFields(blocks, fields);
    LiveInRange(blocks, fields);
    var t := State(env, arr, Scattered(arr, fields, live));
    var rewritten := RewriteInstrs(instrs, fields);
    assert RewriteBody(blocks, fields)[0].instrs == rewritten;
    assert rewritten[0] == Store(ColumnPtr(index, 0), value) && rewritten[1] == instrs[1];
    RunTwo(RewriteBody(blocks, fields), t);
    if 0 <= i < |arr| {
      var t1 := t.(cols := t.cols[0 := t.cols[0][i := v]]);
      assert StepInstr(t, rewritten[0]) == Some(t1);
      assert StepInstr(t1, rewritten[1]) == Some(t1.(env := env[0 := arr[i][0]]));
      ScatterRelates(arr, fields, env, live);
      SetGathered(arr, fields, t.cols, i, 0, v);
    }
  }

  /** The rewritten function reads the array where the original reads what it just stored: right only if that is what was there. */
  lemma RawLoadIsStale(index: Env -> int, value: Env -> int, fields: nat, arr: seq<seq<int>>, env: Env)
    requires fields > 0 && Shaped(arr, fields)
    ensures CallRewritten(StoreThenRawLoad(index, value), fields, arr, env, 1) == CallOriginal(StoreThenRawLoad(index, value), arr, env, 1)
       <==> (0 <= index(env) < |arr| ==> arr[index(env)][0] == value(env))
  {
    hide CallRewritten, CallOriginal;
    StaleOriginal(index, value, fields, arr, env);
    StaleRewritten(index, value, fields, arr, env);
  }

  /** The in-place rewrite of every block. */
  method RewriteInPlace(blocks: array<Block>, fields: nat)
    modifies blocks
    ensures blocks[..] == RewriteBody(old(blocks[..]), fields)
  {
    var b := 0;
    while b < blocks.Length
      invariant 0 <= b <= blocks.Length
      invariant forall c :: 0 <= c < b ==> blocks[c] == Block(RewriteInstrs(old(blocks[..])[c].instrs, fields), old(blocks[..])[c].term)
      invariant forall c :: b <= c < blocks.Length ==> blocks[c] == old(blocks[..])[c]
    {
      var instrs := blocks[b].instrs;
      var k := 0;
      while k < |instrs|
        invariant 0 <= k <= |instrs| == |blocks[b].instrs|
        invariant forall j :: 0 <= j < k ==> instrs[j] == RewriteInstr(blocks[b].instrs[j], fields)
        invariant forall j :: k <= j < |instrs| ==> instrs[j] == blocks[b].instrs[j]
      {
        instrs := instrs[k := RewriteInstr(instrs[k], fields)];
        k := k + 1;
      }
      assert instrs == RewriteInstrs(blocks[b].instrs, fields);
      blocks[b] := Block(instrs, blocks[b].term);
      b := b + 1;
    }
  }
}
