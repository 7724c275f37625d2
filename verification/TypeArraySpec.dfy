/** The type array as a value: its occupied slots, its rotating cursor and the size of its storage,
    with the effect of every operation.  `TypeArray.dfy` holds the array itself. */
module TypeArraySpec {
  import opened Cyclic
  import opened Wrappers

  const STEP_ENLARGE_NUM: nat := 64
  /** All counters are 32-bit and unsigned. */
  const WRAP: nat := 0x1_0000_0000
  /** -1 as such a counter: the index of an element that is in no array. */
  const NO_INDEX: nat := 0xFFFF_FFFF
  /** The size at which the next enlargement no longer fits a 32-bit counter. */
  const SIZE_LIMIT: nat := WRAP - STEP_ENLARGE_NUM

  /** `peak`, `grows` and `copied` are history: the largest size so far, the number of
      enlargements, and how many pointers they have copied. */
  datatype Arr<T> = Arr(slots: seq<T>, cursor: nat, alloc: nat, peak: nat, grows: nat, copied: nat)

  function Empty<T>(): Arr<T> {
    Arr([], 0, STEP_ENLARGE_NUM, 0, 0, 0)
  }

  function IndexOf<T(==)>(s: seq<T>, x: T): (i: nat)
    requires x in s
    ensures i < |s| && s[i] == x
  {
    if s[0] == x then 0 else 1 + IndexOf(s[1..], x)
  }

  /** The index an element carries: its slot, or the sentinel. */
  function Index<T(==)>(a: Arr<T>, x: T): nat {
    if x in a.slots then IndexOf(a.slots, x) else NO_INDEX
  }

  // ---------------------------------------------------------------- operations

  function Insert<T(==)>(a: Arr<T>, x: T): Arr<T> {
    if x in a.slots then a
    else
      var n := |a.slots| + 1;
      var b := a.(slots := a.slots + [x], peak := if n > a.peak then n else a.peak);
      if n == a.alloc then
        b.(alloc := (a.alloc + STEP_ENLARGE_NUM) % WRAP, grows := a.grows + 1, copied := a.copied + n)
      else b
  }

  /** Slot `i` is filled with the last element. */
  function Without<T>(s: seq<T>, i: nat): seq<T>
    requires i < |s|
  {
    var n := |s| - 1;
    if i < n then s[..n][i := s[n]] else s[..n]
  }

  /** The element now standing where `x` stood, if any, and the array without `x`. */
  function Delete<T(==)>(a: Arr<T>, x: T): (Option<T>, Arr<T>) {
    if x !in a.slots then (None, a)
    else
      var i := IndexOf(a.slots, x);
      var slots := Without(a.slots, i);
      (if i < |slots| then Some(slots[i]) else None,
       a.(slots := slots, cursor := if a.cursor >= |slots| then 0 else a.cursor))
  }

  function Get<T>(a: Arr<T>): (Option<T>, Arr<T>) {
    if a.slots == [] then (None, a)
    else
      var c := if a.cursor + 1 < |a.slots| then a.cursor + 1 else 0;
      (Some(a.slots[c]), a.(cursor := c))
  }

  function Begin<T>(a: Arr<T>): Option<T> {
    if a.slots == [] then None else Some(a.slots[0])
  }

  function Next<T(==)>(a: Arr<T>, x: T): Option<T> {
    var i := (Index(a, x) + 1) % WRAP;
    if i < |a.slots| then Some(a.slots[i]) else None
  }

  // ---------------------------------------------------------------- invariant

  ghost predicate Distinct<T>(s: seq<T>) {
    forall i, j :: 0 <= i < j < |s| ==> s[i] != s[j]
  }

  ghost function Elements<T>(s: seq<T>): set<T> {
    set x | x in s
  }

  /** Slots hold distinct elements, too few to reach the sentinel, and the cursor is on one. */
  ghost predicate Sound<T>(a: Arr<T>) {
    && Distinct(a.slots)
    && |a.slots| < NO_INDEX
    && (a.cursor == 0 || a.cursor < |a.slots|)
  }

  /** There is always a free slot; storage is sized by the largest size ever reached; `copied` is
      what all enlargements have copied together. */
  ghost predicate Sized<T>(a: Arr<T>) {
    && |a.slots| <= a.peak < a.alloc < WRAP
    && a.alloc == 64 * (a.peak / 64 + 1)
    && a.alloc == 64 * (a.grows + 1)
    && a.copied == 32 * a.grows * (a.grows + 1)
  }

  ghost predicate Valid<T>(a: Arr<T>) {
    Sound(a) && Sized(a)
  }

  lemma DistinctIndex<T>(s: seq<T>, i: nat)
    requires Distinct(s) && i < |s|
    ensures IndexOf(s, s[i]) == i
  {
  }

  lemma WithoutEffect<T>(s: seq<T>, i: nat)
    requires Distinct(s) && i < |s|
    ensures var r := Without(s, i);
            Distinct(r) && (forall x :: x in r <==> x in s && x != s[i]) && |r| == |s| - 1
  {
    var r, n := Without(s, i), |s| - 1;
    assert forall k :: 0 <= k < n ==> r[k] == if k == i then s[n] else s[k];
    forall x
      ensures x in r <==> x in s && x != s[i]
    {
      if x in s && x != s[i] {
        var k := IndexOf(s, x);
        assert r[if k == n then i else k] == x;
      }
    }
  }

  /** Adding an element keeps the invariant, except for the one insertion that would make the
      storage size wrap around: there, and only there, it breaks. */
  lemma InsertKeepsIff<T>(a: Arr<T>, x: T)
    requires Valid(a)
    ensures Valid(Insert(a, x)) <==> x in a.slots || |a.slots| + 1 != 0x1_0000_0000 - 64
    ensures Elements(Insert(a, x).slots) == Elements(a.slots) + {x}
  {
    if x !in a.slots {
      InsertSizedIff(a, x);
    }
  }

  lemma InsertSizedIff<T>(a: Arr<T>, x: T)
    requires Sized(a) && x !in a.slots
    ensures Sized(Insert(a, x)) <==> |a.slots| + 1 != 0x1_0000_0000 - 64
    ensures |a.slots| + 1 < NO_INDEX
  {
    CapacityStep(a.peak, a.grows, a.alloc);
    assert |a.slots| < a.peak ==> |a.slots| + 1 < a.alloc;
  }

  /** The largest array there can be: `SIZE_LIMIT - 1` elements after so many enlargements that the
      next one would pass 32 bits. */
  function Fullest(): Arr<nat> {
    var grows := SIZE_LIMIT / STEP_ENLARGE_NUM - 1;
    Arr(seq(SIZE_LIMIT - 1, i => i), 0, SIZE_LIMIT, SIZE_LIMIT - 1, grows, 32 * grows * (grows + 1))
  }

  /** The insertion that breaks the array can happen: the largest array is valid, and one element
      more makes its recorded capacity 0. */
  lemma CapacityCanWrap(x: nat)
    requires x >= SIZE_LIMIT
    ensures Valid(Fullest())
    ensures Insert(Fullest(), x).alloc == 0 && !Valid(Insert(Fullest(), x))
  {
    var slots := Fullest().slots;
    assert forall i, j :: 0 <= i < j < |slots| ==> slots[i] == i && slots[j] == j;
    assert x !in slots;
    InsertKeepsIff(Fullest(), x);
  }

  /** The sizes and the copying cost when the largest size grows by one. */
  lemma CapacityStep(peak: nat, grows: nat, alloc: nat)
    requires peak < alloc < WRAP
    requires alloc == STEP_ENLARGE_NUM * (peak / STEP_ENLARGE_NUM + 1) == STEP_ENLARGE_NUM * (grows + 1)
    ensures alloc <= SIZE_LIMIT
    ensures peak + 1 < alloc ==> (peak + 1) / STEP_ENLARGE_NUM == peak / STEP_ENLARGE_NUM
    ensures peak + 1 == alloc ==> (peak + 1) / STEP_ENLARGE_NUM == peak / STEP_ENLARGE_NUM + 1
    ensures 32 * (grows + 1) * (grows + 2) == 32 * grows * (grows + 1) + alloc
  {
  }

  lemma DeleteSound<T>(a: Arr<T>, x: T)
    requires Sound(a)
    ensures var (_, r) := Delete(a, x);
            && Sound(r)
            && Elements(r.slots) == Elements(a.slots) - {x}
            && (x in a.slots ==> |r.slots| == |a.slots| - 1)
  {
    if x in a.slots {
      WithoutEffect(a.slots, IndexOf(a.slots, x));
    }
  }

  lemma DeleteKeeps<T>(a: Arr<T>, x: T)
    requires Valid(a)
    ensures var (_, r) := Delete(a, x);
            && Valid(r)
            && Elements(r.slots) == Elements(a.slots) - {x}
            && (x in a.slots ==> |r.slots| == |a.slots| - 1)
  {
    DeleteSound(a, x);
  }

  /** `Next` of an element that is in no array restarts the walk: its index wraps to 0. */
  lemma NextOfAbsentRestarts<T>(a: Arr<T>, x: T)
    ensures x !in a.slots ==> Next(a, x) == Begin(a)
    ensures Sound(a) && x in a.slots ==>
              Next(a, x) == if IndexOf(a.slots, x) + 1 < |a.slots| then Some(a.slots[IndexOf(a.slots, x) + 1]) else None
  {
  }

  // ---------------------------------------------------------------- runs

  datatype Op<+T> = OpInsert(x: T) | OpDelete(x: T) | OpGet

  function Do<T(==)>(a: Arr<T>, op: Op<T>): Arr<T> {
    match op
    case OpInsert(x) => Insert(a, x)
    case OpDelete(x) => Delete(a, x).1
    case OpGet => Get(a).1
  }

  function Run<T(==)>(a: Arr<T>, ops: seq<Op<T>>): Arr<T>
    decreases |ops|
  {
    if ops == [] then a else Run(Do(a, ops[0]), ops[1..])
  }

  /** The reference: a plain finite set. */
  function DoSet<T(==)>(s: set<T>, op: Op<T>): set<T> {
    match op
    case OpInsert(x) => s + {x}
    case OpDelete(x) => s - {x}
    case OpGet => s
  }

  function RunSet<T(==)>(s: set<T>, ops: seq<Op<T>>): set<T>
    decreases |ops|
  {
    if ops == [] then s else RunSet(DoSet(s, ops[0]), ops[1..])
  }

  /** The set never reaches the size at which the storage size wraps around. */
  predicate Fits<T(==)>(s: set<T>, ops: seq<Op<T>>)
    decreases |ops|
  {
    |s| < SIZE_LIMIT && (ops == [] || Fits(DoSet(s, ops[0]), ops[1..]))
  }

  lemma {:induction false} SizeOfDistinct<T>(s: seq<T>)
    requires Distinct(s)
    ensures |Elements(s)| == |s|
  {
    if s != [] {
      SizeOfDistinct(s[1..]);
      assert Elements(s) == {s[0]} + Elements(s[1..]);
    }
  }

  /** A set that stays small enough leaves room for one more insertion. */
  lemma RoomForInsert<T>(a: Arr<T>, x: T)
    requires Distinct(a.slots) && |DoSet(Elements(a.slots), OpInsert(x))| < SIZE_LIMIT
    ensures x in a.slots || |a.slots| + 1 < SIZE_LIMIT
  {
    SizeOfDistinct(a.slots);
    if x !in a.slots {
      assert |Elements(a.slots) + {x}| == |a.slots| + 1;
    }
  }

  lemma DoRefines<T>(a: Arr<T>, op: Op<T>)
    requires Valid(a) && |DoSet(Elements(a.slots), op)| < SIZE_LIMIT
    ensures Valid(Do(a, op)) && Elements(Do(a, op).slots) == DoSet(Elements(a.slots), op)
  {
    match op {
      case OpInsert(x) =>
        InsertKeepsIff(a, x);
        RoomForInsert(a, x);
      case OpDelete(x) => DeleteKeeps(a, x);
      case OpGet =>
    }
  }

  /** The operation is not the insertion that makes the storage size wrap around. */
  predicate HasRoom<T(==)>(a: Arr<T>, op: Op<T>) {
    op.OpInsert? ==> op.x in a.slots || |a.slots| + 1 < SIZE_LIMIT
  }

  lemma FitsFirst<T>(a: Arr<T>, ops: seq<Op<T>>)
    requires Valid(a) && Fits(Elements(a.slots), ops) && ops != []
    ensures HasRoom(a, ops[0]) && Fits(Elements(Do(a, ops[0]).slots), ops[1..])
  {
    assert Fits(DoSet(Elements(a.slots), ops[0]), ops[1..]);
    if ops[0].OpInsert? {
      RoomForInsert(a, ops[0].x);
    }
    DoRefines(a, ops[0]);
  }

  /** Every run refines a finite set: repeated insertions and deletions of absent elements do
      nothing, slots stay distinct, and the capacity, allocation and copying formulas hold. */
  lemma {:induction false} RunRefinesSet<T>(a: Arr<T>, ops: seq<Op<T>>)
    requires Valid(a) && Fits(Elements(a.slots), ops)
    ensures Valid(Run(a, ops)) && Elements(Run(a, ops).slots) == RunSet(Elements(a.slots), ops)
    decreases |ops|
  {
    if ops != [] {
      DoRefines(a, ops[0]);
      RunRefinesSet(Do(a, ops[0]), ops[1..]);
    }
  }

  // ---------------------------------------------------------------- rotation

  /** The elements returned by `k` consecutive Gets. */
  function Gets<T>(a: Arr<T>, k: nat): seq<T>
    requires a.slots != []
    decreases k
  {
    if k == 0 then [] else [Get(a).0.value] + Gets(Get(a).1, k - 1)
  }

  lemma {:induction false} GetsAreTurns<T>(a: Arr<T>, k: nat)
    requires Sound(a) && a.slots != []
    ensures Gets(a, k) == Turns(a.slots, a.cursor + 1, k)
    decreases k
  {
    if k > 0 {
      GetsAreTurns(Get(a).1, k - 1);
    }
  }

  /** How often each element is returned: as often as the cursor, starting behind its present
      slot, comes by. */
  lemma GetCounts<T>(a: Arr<T>, k: nat, j: nat)
    requires Sound(a) && j < |a.slots|
    ensures Count(Gets(a, k), a.slots[j]) == Hits(a.cursor + 1, k, |a.slots|, j)
  {
    GetsAreTurns(a, k);
    TurnsCount(a.slots, a.cursor + 1, k, j);
  }

  /** Without insertions and deletions any `n` consecutive Gets on `n` elements return each
      exactly once, and any number of Gets spreads evenly. */
  lemma GetsAreFair<T>(a: Arr<T>, k: nat, j: nat)
    requires Sound(a) && j < |a.slots|
    ensures Count(Gets(a, |a.slots|), a.slots[j]) == 1
    ensures k / |a.slots| <= Count(Gets(a, k), a.slots[j]) <= k / |a.slots| + 1
  {
    GetCounts(a, |a.slots|, j);
    HitsOneTurn(a.cursor + 1, |a.slots|, j);
    GetCounts(a, k, j);
    HitsBalanced(a.cursor + 1, k, |a.slots|, j);
  }

  /** Everything the Gets of a run return, in order. */
  function Returned<T(==)>(a: Arr<T>, ops: seq<Op<T>>): seq<T>
    decreases |ops|
  {
    if ops == [] then []
    else
      (if ops[0].OpGet? && a.slots != [] then [Get(a).0.value] else []) + Returned(Do(a, ops[0]), ops[1..])
  }

  lemma {:induction false} RunAppend<T>(a: Arr<T>, x: seq<Op<T>>, y: seq<Op<T>>)
    ensures Run(a, x + y) == Run(Run(a, x), y)
    decreases |x|
  {
    if x == [] {
      assert x + y == y;
    } else {
      RunAppend(Do(a, x[0]), x[1..], y);
      assert (x + y)[0] == x[0] && (x + y)[1..] == x[1..] + y;
      assert Run(a, x + y) == Run(Do(a, x[0]), x[1..] + y);
    }
  }

  lemma Joined<T>(x: seq<T>, y: seq<T>, z: seq<T>)
    ensures (x + y) + z == x + (y + z)
  {
  }

  /** What a run returns, by its parts. */
  lemma {:induction false} ReturnedAppend<T>(a: Arr<T>, x: seq<Op<T>>, y: seq<Op<T>>)
    ensures Returned(a, x + y) == Returned(a, x) + Returned(Run(a, x), y)
    decreases |x|
  {
    if x == [] {
      assert x + y == y;
    } else {
      var b := Do(a, x[0]);
      ReturnedAppend(b, x[1..], y);
      assert (x + y)[1..] == x[1..] + y;
      Joined(if x[0].OpGet? && a.slots != [] then [Get(a).0.value] else [],
             Returned(b, x[1..]), Returned(Run(b, x[1..]), y));
    }
  }

  function OnlyGets<T>(k: nat): seq<Op<T>> {
    seq(k, i requires 0 <= i < k => OpGet)
  }

  /** A run of `k` Gets returns the elements behind the cursor in slot order, cyclically. */
  lemma {:induction false} ReturnedByGets<T>(a: Arr<T>, k: nat, i: nat)
    requires Sound(a) && a.slots != [] && i < k
    ensures Returned(a, OnlyGets(k)) == Gets(a, k) && |Gets(a, k)| == k
    ensures Gets(a, k)[i] == a.slots[(a.cursor + 1 + i) % |a.slots|]
    decreases k
  {
    var b := Do(a, OpGet);
    var ops: seq<Op<T>> := OnlyGets(k);
    assert ops[1..] == OnlyGets(k - 1);
    var n := |a.slots|;
    if a.cursor + 1 < n {
      ModUnique(a.cursor + 1, n, 0, a.cursor + 1);
    } else {
      ModUnique(a.cursor + 1, n, 1, 0);
    }
    if k > 1 {
      ReturnedByGets(b, k - 1, if i == 0 then 0 else i - 1);
    }
    if i > 0 {
      ModOfSum(a.cursor + 1, i, n);
      assert b.cursor + 1 + (i - 1) == b.cursor + i;
    }
  }

  function CountGets<T>(ops: seq<Op<T>>): nat {
    if ops == [] then 0 else (if ops[0].OpGet? then 1 else 0) + CountGets(ops[1..])
  }

  /** Gets until slot `j` is returned, if nothing is inserted or deleted meanwhile. */
  function Wait<T>(a: Arr<T>, j: nat): int {
    if j > a.cursor then j - a.cursor else |a.slots| - a.cursor + j
  }

  /** The cursor is on a slot and no element is stored twice: what rotation depends on. */
  ghost predicate Rotates<T>(a: Arr<T>) {
    Distinct(a.slots) && (a.cursor == 0 || a.cursor < |a.slots|)
  }

  /** Deleting `y` puts `x` off: either the cursor stands on the last slot, falls back to the first
      one and `x` stands there, or `x` stands last and is moved into a hole the cursor has already
      passed. */
  predicate PutsOff<T(==)>(a: Arr<T>, y: T, x: T) {
    y in a.slots && x in a.slots && x != y &&
    var n, i, j := |a.slots| - 1, IndexOf(a.slots, y), IndexOf(a.slots, x);
    || (a.cursor == n && j == 0 && n > 1)
    || (a.cursor < n && j == n && 0 < i <= a.cursor)
  }

  /** Exactly those deletions make an element wait longer. */
  lemma DeletionDelaysIff<T>(a: Arr<T>, y: T, x: T)
    requires Rotates(a) && y in a.slots && x in a.slots && x != y
    ensures var b := Delete(a, y).1;
            && Rotates(b) && x in b.slots
            && (Wait(b, IndexOf(b.slots, x)) > Wait(a, IndexOf(a.slots, x)) <==> PutsOff(a, y, x))
  {
    var n, i, j := |a.slots| - 1, IndexOf(a.slots, y), IndexOf(a.slots, x);
    var b := Delete(a, y).1;
    WithoutEffect(a.slots, i);
    DistinctIndex(b.slots, if j == n then i else j);
  }

  /** A run that neither deletes `x` nor puts it off. */
  predicate Spares<T(==)>(a: Arr<T>, ops: seq<Op<T>>, x: T)
    decreases |ops|
  {
    ops == [] ||
    (&& (ops[0].OpDelete? ==> ops[0].x != x && !PutsOff(a, ops[0].x, x))
     && Spares(Do(a, ops[0]), ops[1..], x))
  }

  /** How often a run stores a new element. */
  function Added<T(==)>(a: Arr<T>, ops: seq<Op<T>>): nat
    decreases |ops|
  {
    if ops == [] then 0
    else (if ops[0].OpInsert? && ops[0].x !in a.slots then 1 else 0) + Added(Do(a, ops[0]), ops[1..])
  }

  /** What one operation does to the wait of an element it does not return. */
  lemma WaitAfter<T>(a: Arr<T>, op: Op<T>, x: T)
    requires Rotates(a) && x in a.slots && (op.OpDelete? ==> op.x != x && !PutsOff(a, op.x, x))
    requires op.OpGet? ==> Get(a).0 != Some(x)
    ensures var b := Do(a, op);
            && Rotates(b) && x in b.slots
            && Wait(b, IndexOf(b.slots, x))
               <= Wait(a, IndexOf(a.slots, x))
                  + (if op.OpInsert? && op.x !in a.slots then 1 else 0) - (if op.OpGet? then 1 else 0)
  {
    match op {
      case OpInsert(y) =>
        var b := Insert(a, y);
        assert b.slots[IndexOf(a.slots, x)] == x;
        DistinctIndex(b.slots, IndexOf(a.slots, x));
      case OpDelete(y) =>
        if y in a.slots {
          DeletionDelaysIff(a, y, x);
        }
      case OpGet =>
    }
  }

  lemma {:induction false} ReturnedWithinWait<T>(a: Arr<T>, ops: seq<Op<T>>, x: T)
    requires Rotates(a) && x in a.slots && Spares(a, ops, x)
    requires CountGets(ops) >= Wait(a, IndexOf(a.slots, x)) + Added(a, ops)
    ensures x in Returned(a, ops)
    decreases |ops|
  {
    if ops != [] && !(ops[0].OpGet? && Get(a).0 == Some(x)) {
      WaitAfter(a, ops[0], x);
      ReturnedWithinWait(Do(a, ops[0]), ops[1..], x);
    }
  }

  /** Rotation with insertions and deletions interleaved: an element that no deletion puts off is
      returned within as many Gets as there are elements at the start and new ones on the way. */
  lemma ReturnedUnlessPutOff<T>(a: Arr<T>, ops: seq<Op<T>>, x: T)
    requires Sound(a) && x in a.slots && Spares(a, ops, x)
    requires CountGets(ops) >= |a.slots| + Added(a, ops)
    ensures x in Returned(a, ops)
  {
    ReturnedWithinWait(a, ops, x);
  }

  lemma {:induction false} GrowthIsAdded<T>(a: Arr<T>, ops: seq<Op<T>>, x: T)
    requires forall op :: op in ops ==> !op.OpDelete?
    ensures |Run(a, ops).slots| == |a.slots| + Added(a, ops) && Spares(a, ops, x)
    decreases |ops|
  {
    if ops != [] {
      assert ops[0] in ops;
      assert forall op :: op in ops[1..] ==> op in ops;
      GrowthIsAdded(Do(a, ops[0]), ops[1..], x);
    }
  }

  /** Rotation under growth: with insertions interleaved anyhow and no deletions, every element
      present is returned within a number of Gets no larger than the final size. */
  lemma RotationUnderGrowth<T>(a: Arr<T>, ops: seq<Op<T>>, x: T)
    requires Sound(a) && x in a.slots
    requires forall op :: op in ops ==> !op.OpDelete?
    requires CountGets(ops) >= |Run(a, ops).slots|
    ensures x in Returned(a, ops)
  {
    GrowthIsAdded(a, ops, x);
    ReturnedUnlessPutOff(a, ops, x);
  }

  /** `k` times: Get, delete what was returned, insert it again. */
  function Churn<T>(y: T, k: nat): seq<Op<T>> {
    if k == 0 then [] else [OpGet, OpDelete(y), OpInsert(y)] + Churn(y, k - 1)
  }

  /** The bound by the final size does not survive deletions, because elements that are inserted
      again count: on two elements, deleting and re-inserting whatever Get returned starves the
      other one for ever. */
  lemma {:induction false} DeletionsCanStarve<T>(a: Arr<T>, x: T, y: T, k: nat)
    requires Valid(a) && a.slots == [x, y] && a.cursor == 0
    ensures Run(a, Churn(y, k)) == a && x !in Returned(a, Churn(y, k)) && CountGets(Churn(y, k)) == k
    decreases k
  {
    if k > 0 {
      var ops := Churn(y, k);
      var b := Do(a, OpGet);
      var c := Do(b, OpDelete(y));
      assert IndexOf([x, y], y) == 1;
      assert c.slots == [x] && c.cursor == 0;
      assert Do(c, OpInsert(y)) == a;
      assert ops[1..][1..][1..] == Churn(y, k - 1);
      assert Run(a, ops) == Run(b, ops[1..]) == Run(c, ops[1..][1..]) == Run(a, ops[1..][1..][1..]);
      assert Returned(a, ops) == [y] + Returned(b, ops[1..]);
      assert Returned(b, ops[1..]) == Returned(c, ops[1..][1..]) == Returned(a, Churn(y, k - 1));
      assert CountGets(ops) == 1 + CountGets(ops[1..]) == 1 + CountGets(ops[1..][1..]);
      DeletionsCanStarve(a, x, y, k - 1);
    }
  }

  /** A deletion that puts an element off does break the bound: three Gets on three elements, with
      such a deletion before the last, do not return `x`. */
  lemma DeletionCanPutOff<T>(a: Arr<T>, x: T, y: T, z: T)
    requires Valid(a) && a.slots == [x, y, z] && a.cursor == 0
    ensures var ops := [OpGet, OpGet, OpDelete(y), OpGet];
            && PutsOff(Run(a, ops[..2]), y, x)
            && CountGets(ops) == |a.slots| && Added(a, ops) == 0 && x !in Returned(a, ops)
  {
    var ops := [OpGet, OpGet, OpDelete(y), OpGet];
    var last: seq<Op<T>> := [OpGet];
    var b := Do(a, OpGet);
    var c := Do(b, OpGet);
    var d := Do(c, OpDelete(y));
    assert a.slots[0] != a.slots[1] && a.slots[0] != a.slots[2] && a.slots[1] != a.slots[2];
    assert IndexOf([x, y, z], y) == 1;
    assert d.slots == [x, z] && d.cursor == 0;
    assert ops[..2][1..] == last && last[1..] == [] && ops[1..][1..][1..] == last;
    assert Run(a, ops[..2]) == Run(b, last) == Run(c, []);
    assert Returned(d, last) == [z] + Returned(Do(d, OpGet), []);
    assert Returned(a, ops) == [y] + Returned(b, ops[1..]);
    assert Returned(b, ops[1..]) == [z] + Returned(c, ops[1..][1..]);
    assert Returned(c, ops[1..][1..]) == Returned(d, last);
    assert CountGets(ops[1..][1..]) == CountGets(last) == 1;
    assert Added(d, last) == 0 && Added(c, ops[1..][1..]) == 0 && Added(b, ops[1..]) == 0;
  }

  // ---------------------------------------------------------------- scanning while deleting

  /** The element at slot `i`, or none at the end: where a scan stands. */
  function At<T>(a: Arr<T>, i: nat): Option<T> {
    if i < |a.slots| then Some(a.slots[i]) else None
  }

  lemma ScanStep<T>(a: Arr<T>, i: nat)
    requires Sound(a) && i < |a.slots|
    ensures IndexOf(a.slots, a.slots[i]) == i
    ensures Next(a, a.slots[i]) == At(a, i + 1)
    ensures var (q, b) := Delete(a, a.slots[i]); Sound(b) && q == At(b, i) && |b.slots| == |a.slots| - 1
  {
    DistinctIndex(a.slots, i);
    DeleteSound(a, a.slots[i]);
    NextOfAbsentRestarts(a, a.slots[i]);
  }

  /** The walk `p = drop(p) ? Delete(p) : Next(p)` from slot `i` until the end: the elements it
      visits, in order, and the array it leaves. */
  function Walk<T(==)>(a: Arr<T>, i: nat, drop: set<T>): (seq<T>, Arr<T>)
    requires Sound(a)
    decreases |a.slots| - i
  {
    if i >= |a.slots| then ([], a)
    else
      var x := a.slots[i];
      ScanStep(a, i);
      var (rest, end) := if x in drop then Walk(Delete(a, x).1, i, drop) else Walk(a, i + 1, drop);
      ([x] + rest, end)
  }

  /** A scan of `s` from slot `i` visited each element there once and kept those not dropped. */
  ghost predicate Scanned<T>(s: seq<T>, i: nat, drop: set<T>, visited: seq<T>, end: seq<T>)
    requires i <= |s|
  {
    && multiset(visited) == multiset(s[i..])
    && Elements(end) == Elements(s[..i]) + (Elements(s[i..]) - drop)
  }

  /** What is left to scan once slot `i` has been visited and filled with the last element. */
  lemma RestAfterDrop<T>(s: seq<T>, i: nat)
    requires i < |s|
    ensures var r := Without(s, i);
            && r[..i] == s[..i]
            && multiset(s[i..]) == multiset{s[i]} + multiset(r[i..])
            && Elements(s[i..]) == {s[i]} + Elements(r[i..])
  {
    var r, n := Without(s, i), |s| - 1;
    assert s[i..] == [s[i]] + s[i + 1..];
    if i < n {
      assert s[i + 1..] == s[i + 1..n] + [s[n]];
      assert r[i..] == [s[n]] + s[i + 1..n];
    } else {
      assert s[i + 1..] == [] && r[i..] == [];
    }
    SameBagSameElements(s[i + 1..], r[i..]);
    assert Elements(s[i..]) == {s[i]} + Elements(s[i + 1..]);
  }

  lemma SameBagSameElements<T>(s: seq<T>, r: seq<T>)
    requires multiset(s) == multiset(r)
    ensures Elements(s) == Elements(r)
  {
    assert forall x :: x in s <==> x in multiset(s);
    assert forall x :: x in r <==> x in multiset(r);
  }

  lemma ScannedAfterDrop<T>(s: seq<T>, i: nat, drop: set<T>, rest: seq<T>, end: seq<T>)
    requires i < |s| && s[i] in drop && Scanned(Without(s, i), i, drop, rest, end)
    ensures Scanned(s, i, drop, [s[i]] + rest, end)
  {
    RestAfterDrop(s, i);
  }

  lemma ScannedAfterKeep<T>(s: seq<T>, i: nat, drop: set<T>, rest: seq<T>, end: seq<T>)
    requires i < |s| && s[i] !in drop && Scanned(s, i + 1, drop, rest, end)
    ensures Scanned(s, i, drop, [s[i]] + rest, end)
  {
    assert s[i..] == [s[i]] + s[i + 1..];
    assert s[..i + 1] == s[..i] + [s[i]];
    assert Elements(s[..i + 1]) == Elements(s[..i]) + {s[i]};
    assert Elements(s[i..]) == {s[i]} + Elements(s[i + 1..]);
  }

  lemma WalkAfterDrop<T>(a: Arr<T>, i: nat, drop: set<T>)
    requires Sound(a) && i < |a.slots| && a.slots[i] in drop && Sound(Delete(a, a.slots[i]).1)
    requires var b := Delete(a, a.slots[i]).1;
             && b.slots == Without(a.slots, i)
             && Scanned(b.slots, i, drop, Walk(b, i, drop).0, Walk(b, i, drop).1.slots)
    ensures Walk(a, i, drop).1 == Walk(Delete(a, a.slots[i]).1, i, drop).1
    ensures Scanned(a.slots, i, drop, Walk(a, i, drop).0, Walk(a, i, drop).1.slots)
  {
    var (rest, end) := Walk(Delete(a, a.slots[i]).1, i, drop);
    ScannedAfterDrop(a.slots, i, drop, rest, end.slots);
  }

  lemma WalkAfterKeep<T>(a: Arr<T>, i: nat, drop: set<T>)
    requires Sound(a) && i < |a.slots| && a.slots[i] !in drop
    requires Scanned(a.slots, i + 1, drop, Walk(a, i + 1, drop).0, Walk(a, i + 1, drop).1.slots)
    ensures Walk(a, i, drop).1 == Walk(a, i + 1, drop).1
    ensures Scanned(a.slots, i, drop, Walk(a, i, drop).0, Walk(a, i, drop).1.slots)
  {
    var (rest, end) := Walk(a, i + 1, drop);
    ScannedAfterKeep(a.slots, i, drop, rest, end.slots);
  }

  lemma {:induction false} WalkScans<T>(a: Arr<T>, i: nat, drop: set<T>)
    requires Sound(a) && i <= |a.slots|
    ensures var (visited, end) := Walk(a, i, drop);
            Sound(end) && Scanned(a.slots, i, drop, visited, end.slots)
    decreases |a.slots| - i
  {
    if i == |a.slots| {
      assert a.slots[..i] == a.slots && a.slots[i..] == [];
    } else {
      ScanStep(a, i);
      if a.slots[i] in drop {
        WalkScans(Delete(a, a.slots[i]).1, i, drop);
        WalkAfterDrop(a, i, drop);
      } else {
        WalkScans(a, i + 1, drop);
        WalkAfterKeep(a, i, drop);
      }
    }
  }

  /** From the first slot: every element of the array once, and exactly the kept ones remain. */
  lemma ScanWhileDeleting<T>(a: Arr<T>, drop: set<T>)
    requires Sound(a)
    ensures var (visited, end) := Walk(a, 0, drop);
            && multiset(visited) == multiset(a.slots)
            && Sound(end) && Elements(end.slots) == Elements(a.slots) - drop
  {
    WalkScans(a, 0, drop);
    assert a.slots[0..] == a.slots && a.slots[..0] == [];
  }

  /** A scan of `before` has visited `visited` and stands at slot `i` of `now`. */
  ghost predicate Scanning<T>(before: Arr<T>, visited: seq<T>, now: Arr<T>, i: nat, drop: set<T>) {
    && Sound(before) && Sound(now) && i <= |now.slots|
    && visited + Walk(now, i, drop).0 == Walk(before, 0, drop).0
    && Walk(now, i, drop).1 == Walk(before, 0, drop).1
  }

  lemma ScanStarts<T>(a: Arr<T>, drop: set<T>)
    requires Sound(a)
    ensures Scanning(a, [], a, 0, drop)
  {
    assert [] + Walk(a, 0, drop).0 == Walk(a, 0, drop).0;
  }

  lemma ScanMoves<T>(before: Arr<T>, visited: seq<T>, now: Arr<T>, i: nat, drop: set<T>)
    requires Scanning(before, visited, now, i, drop) && i < |now.slots|
    ensures var x := now.slots[i];
            && (x in drop ==> Scanning(before, visited + [x], Delete(now, x).1, i, drop))
            && (x !in drop ==> Scanning(before, visited + [x], now, i + 1, drop))
  {
    ScanStep(now, i);
    var x := now.slots[i];
    var rest := if x in drop then Walk(Delete(now, x).1, i, drop).0 else Walk(now, i + 1, drop).0;
    assert visited + ([x] + rest) == (visited + [x]) + rest;
  }

  lemma ScanEnds<T>(before: Arr<T>, visited: seq<T>, now: Arr<T>, drop: set<T>)
    requires Scanning(before, visited, now, |now.slots|, drop)
    ensures (visited, now) == Walk(before, 0, drop)
  {
    assert visited + [] == visited;
  }
}
