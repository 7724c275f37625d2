/** The type array in memory: storage that is written in place and replaced when full, elements
    that carry their own slot number, and an allocator that must be told the size of every block
    it takes back.  Every method is proved to compute the function of the same name in
    `TypeArraySpec`. */
module TypeArray {
  import opened TypeArraySpec
  import opened Wrappers

  const SIZEOF_PTR: nat := 8

  /** A forwarder's network address. */
  datatype IpAddr = IpAddr(ip: string, port: int)

  /** The handle of a connection, which an attempt to connect has already; 0 is none. */
  datatype Handle = Handle(id: nat)

  const NO_HANDLE := Handle(0)

  /** The stored element: a session with a forwarder. */
  class ForwarderSession {
    const addr: IpAddr
    var index: nat
    var handler: Option<Handle>   // of its connection, when there is one
    var handleID: Handle          // of its last connection, none before the first

    constructor (addr: IpAddr)
      ensures this.addr == addr && index == NO_INDEX && handler == None && handleID == NO_HANDLE
    {
      this.addr, index, handler, handleID := addr, NO_INDEX, None, NO_HANDLE;
    }

    function GetIndex(): nat
      reads this
    {
      index
    }

    method SetIndex(i: nat)
      modifies this`index
      ensures index == i
    {
      index := i;
    }
  }

  /** An allocator of sized blocks: `blocks` holds every block in use with its size in bytes. */
  class SizedAllocator {
    var blocks: map<array<ForwarderSession?>, nat>

    constructor ()
      ensures blocks == map[]
    {
      blocks := map[];
    }

    method Malloc(count: nat) returns (block: array<ForwarderSession?>)
      modifies this
      ensures fresh(block) && block.Length == count
      ensures blocks == old(blocks)[block := SIZEOF_PTR * count]
    {
      block := new ForwarderSession?[count](_ => null);
      blocks := blocks[block := SIZEOF_PTR * count];
    }

    /** A block may be freed once, and only with the size it was allocated with. */
    method Free(block: array<ForwarderSession?>, size: nat)
      requires block in blocks && blocks[block] == size
      modifies this
      ensures blocks == old(blocks) - {block}
    {
      blocks := blocks - {block};
    }
  }

  class TypeArray {
    var ppArray: array<ForwarderSession?>
    var allocNum: nat
    var curNum: nat
    var index: nat
    const allocator: SizedAllocator
    ghost var peak: nat
    ghost var grows: nat
    ghost var copied: nat
    ghost var known: set<ForwarderSession>   // every element ever handed to this array

    ghost function State(): Arr<ForwarderSession?>
      requires curNum <= ppArray.Length
      reads this, ppArray
    {
      Arr(ppArray[..curNum], index, allocNum, peak, grows, copied)
    }

    /** The storage is a block of the recorded size; an element in slot `i` carries `i`, an
        element in no slot carries the sentinel. */
    ghost predicate Linked()
      reads this, ppArray, known, allocator
    {
      && ppArray.Length == allocNum && curNum <= allocNum
      && ppArray in allocator.blocks && allocator.blocks[ppArray] == SIZEOF_PTR * allocNum
      && (forall i :: 0 <= i < curNum ==> ppArray[i] != null && ppArray[i] in known && ppArray[i].index == i)
      && (forall s :: s in known && s !in ppArray[..curNum] ==> s.index == NO_INDEX)
    }

    ghost predicate Valid()
      reads this, ppArray, known, allocator
    {
      Linked() && TypeArraySpec.Valid(State())
    }

    /** The element is in this array or in none. */
    ghost predicate Mine(p: ForwarderSession)
      reads this, p
    {
      p in known || p.index == NO_INDEX
    }

    /** Storage other than this array's own is as it was. */
    twostate predicate OtherBlocksKept()
      reads this, allocator
    {
      allocator.blocks - {ppArray} == old(allocator.blocks) - {old(ppArray)}
    }

    constructor (allocator: SizedAllocator)
      modifies allocator
      ensures Valid() && fresh(ppArray) && this.allocator == allocator && known == {}
      ensures State() == TypeArraySpec.Empty()
      ensures allocator.blocks - {ppArray} == old(allocator.blocks)
    {
      var block := allocator.Malloc(STEP_ENLARGE_NUM);
      ppArray := block;
      allocNum, curNum, index := STEP_ENLARGE_NUM, 0, 0;
      this.allocator := allocator;
      peak, grows, copied, known := 0, 0, 0, {};
    }

    /** The destructor: it frees with `allocNum`, growth with `curNum`; both are the right size. */
    method Destroy()
      requires Valid()
      modifies allocator
      ensures allocator.blocks == old(allocator.blocks) - {ppArray}
    {
      allocator.Free(ppArray, SIZEOF_PTR * allocNum);
    }

    /** The caller must stay below the size at which the 32-bit storage size wraps around
        (`InsertKeepsIff`).  An element of another array is left alone. */
    method Insert(p: ForwarderSession)
      requires Valid()
      requires Mine(p) ==> p in ppArray[..curNum] || curNum + 1 < SIZE_LIMIT
      modifies this, ppArray, p`index, allocator
      ensures Valid() && known == old(known) + (if old(Mine(p)) then {p} else {})
      ensures State() == if old(Mine(p)) then TypeArraySpec.Insert(old(State()), p) else old(State())
      ensures forall x :: x in State().slots <==> x in old(State()).slots || (x == p && old(Mine(p)))
      ensures OtherBlocksKept() && (ppArray == old(ppArray) || fresh(ppArray))
    {
      var i := p.GetIndex();
      if i == NO_INDEX {
        Append(p);
      }
    }

    method Append(p: ForwarderSession)
      requires Valid() && p.index == NO_INDEX && curNum + 1 < SIZE_LIMIT
      modifies this, ppArray, p`index, allocator
      ensures Linked() && State() == TypeArraySpec.Insert(old(State()), p)
      ensures Valid() && known == old(known) + {p}
      ensures State().slots == old(State()).slots + [p]
      ensures OtherBlocksKept() && (ppArray == old(ppArray) || fresh(ppArray))
    {
      ghost var before := State();
      InsertKeepsIff(before, p);
      Place(p);
      if curNum == allocNum {
        Enlarge();
      }
      assert State() == TypeArraySpec.Insert(before, p);
    }

    method Place(p: ForwarderSession)
      requires Linked() && p.index == NO_INDEX && curNum < allocNum && curNum < NO_INDEX
      modifies this`curNum, this`peak, this`known, ppArray, p`index
      ensures Linked() && known == old(known) + {p} && curNum == old(curNum) + 1
      ensures ppArray[..curNum] == old(ppArray[..curNum]) + [p] && p !in old(ppArray[..curNum])
      ensures peak == if curNum > old(peak) then curNum else old(peak)
    {
      assert p !in ppArray[..curNum];
      known := known + {p};
      p.SetIndex(curNum);
      ppArray[curNum] := p;
      curNum := curNum + 1;
      peak := if curNum > peak then curNum else peak;
      assert ppArray[..curNum] == old(ppArray[..curNum]) + [p];
    }

    /** Moves the elements to storage 64 slots larger and frees the old block with `curNum`, which
        is its size because the array is full. */
    method Enlarge()
      requires Linked() && curNum == allocNum && allocNum + STEP_ENLARGE_NUM < WRAP
      modifies this`ppArray, this`allocNum, this`grows, this`copied, allocator
      ensures Linked() && fresh(ppArray)
      ensures ppArray[..curNum] == old(ppArray[..curNum])
      ensures allocNum == old(allocNum) + STEP_ENLARGE_NUM
      ensures grows == old(grows) + 1 && copied == old(copied) + curNum
      ensures OtherBlocksKept()
    {
      allocNum := allocNum + STEP_ENLARGE_NUM;
      var block := allocator.Malloc(allocNum);
      forall k | 0 <= k < curNum {
        block[k] := ppArray[k];
      }
      assert block[..curNum] == ppArray[..curNum];
      allocator.Free(ppArray, SIZEOF_PTR * curNum);
      ppArray := block;
      assert ppArray[..curNum] == old(ppArray[..curNum]);
      grows, copied := grows + 1, copied + curNum;
    }

    /** Fills the hole with the last element and returns it, so that a scan can go on from the
        same slot. */
    method Delete(p: ForwarderSession) returns (next: ForwarderSession?)
      requires Valid() && Mine(p)
      modifies this`curNum, this`index, ppArray, known`index, p`index
      ensures Valid() && p.index == NO_INDEX
      ensures State() == TypeArraySpec.Delete(old(State()), p).1
      ensures OptionOf(next) == TypeArraySpec.Delete(old(State()), p).0
      ensures forall x :: x in State().slots <==> x in old(State()).slots && x != p
    {
      ghost var before := State();
      DeleteKeeps(before, p);
      IndexIsSlot(p);
      var i := p.GetIndex();
      if i == NO_INDEX {
        return null;
      }
      DistinctIndex(before.slots, i);
      next := FillHole(p, i);
      if index >= curNum {
        index := 0;
      }
      assert State() == TypeArraySpec.Delete(before, p).1;
    }

    method FillHole(p: ForwarderSession, i: nat) returns (next: ForwarderSession?)
      requires Linked() && i < curNum && ppArray[i] == p && Distinct(ppArray[..curNum])
      modifies this`curNum, ppArray, known`index
      ensures Linked() && p.index == NO_INDEX && curNum == old(curNum) - 1
      ensures ppArray[..curNum] == Without(old(ppArray[..curNum]), i)
      ensures forall x :: x in ppArray[..curNum] <==> x in old(ppArray[..curNum]) && x != p
      ensures next == if i < curNum then ppArray[i] else null
    {
      WithoutEffect(ppArray[..curNum], i);
      curNum := curNum - 1;
      if i < curNum {
        next := ppArray[curNum];
        ppArray[i] := next;
        next.SetIndex(i);
      } else {
        // the deleted element was the last one, so no slot follows it
        assert !(i + 1 < curNum);
        next := null;
      }
      p.SetIndex(NO_INDEX);
      assert ppArray[..curNum] == Without(old(ppArray[..curNum]), i);
    }

    method Get() returns (p: ForwarderSession?)
      requires Valid()
      modifies this`index
      ensures Valid()
      ensures State() == TypeArraySpec.Get(old(State())).1
      ensures OptionOf(p) == TypeArraySpec.Get(old(State())).0
    {
      if curNum == 0 {
        return null;
      }
      index := index + 1;
      if index < curNum {
        p := ppArray[index];
      } else {
        index := 0;
        p := ppArray[index];
      }
    }

    method IsEmpty() returns (r: bool)
      requires Valid()
      ensures r <==> State().slots == []
    {
      r := curNum == 0;
    }

    method Begin() returns (p: ForwarderSession?)
      requires Valid()
      ensures OptionOf(p) == TypeArraySpec.Begin(State())
    {
      if curNum != 0 {
        p := ppArray[0];
      } else {
        p := null;
      }
    }

    /** The element in the slot after the number `p` carries; for an element of this array or of none
        that is the step of a scan. */
    method Next(p: ForwarderSession) returns (q: ForwarderSession?)
      requires Valid()
      ensures OptionOf(q) == At(State(), (p.index + 1) % WRAP)
      ensures Mine(p) ==> OptionOf(q) == TypeArraySpec.Next(State(), p)
    {
      var i := p.GetIndex();
      if Mine(p) {
        IndexIsSlot(p);
      }
      i := (i + 1) % WRAP;
      if i < curNum {
        q := ppArray[i];
      } else {
        q := null;
      }
    }

    method Size() returns (n: nat)
      requires Valid()
      ensures n == |State().slots|
    {
      n := curNum;
    }

    /** The number an element carries is its slot in the abstract array. */
    lemma IndexIsSlot(p: ForwarderSession)
      requires Valid() && Mine(p)
      ensures p.index == Index(State(), p)
    {
      if p in State().slots {
        DistinctIndex(State().slots, p.index);
      }
    }

    /** The walk that calls Delete on the elements of `drop` and Next on the others. */
    method ScanDropping(drop: set<ForwarderSession?>) returns (visited: seq<ForwarderSession?>)
      requires Valid()
      modifies this`curNum, this`index, ppArray, known`index
      ensures Valid()
      ensures (visited, State()) == Walk(old(State()), 0, drop)
      ensures multiset(visited) == multiset(old(State()).slots)
      ensures Elements(State().slots) == Elements(old(State()).slots) - drop
    {
      ScanWhileDeleting(State(), drop);
      visited := ScanAll(drop);
    }

    /** The loop of that walk. */
    method ScanAll(drop: set<ForwarderSession?>) returns (visited: seq<ForwarderSession?>)
      requires Valid()
      modifies this`curNum, this`index, ppArray, known`index
      ensures Valid()
      ensures (visited, State()) == Walk(old(State()), 0, drop)
    {
      ghost var before := State();
      ScanStarts(before, drop);
      visited := [];
      ghost var i: nat := 0;
      var p := Begin();
      while p != null
        invariant Valid() && ppArray == old(ppArray) && known == old(known)
        invariant Scanning(before, visited, State(), i, drop)
        invariant OptionOf(p) == At(State(), i)
        decreases curNum - i
      {
        var q;
        q, i := ScanOne(before, visited, p, i, drop);
        p, visited := q, visited + [p];
      }
      ScanEnds(before, visited, State(), drop);
    }

    /** One turn of that loop. */
    method ScanOne(ghost before: Arr<ForwarderSession?>, ghost visited: seq<ForwarderSession?>,
                   p: ForwarderSession, ghost i: nat, drop: set<ForwarderSession?>)
      returns (q: ForwarderSession?, ghost j: nat)
      requires Valid() && i < curNum && ppArray[i] == p && Scanning(before, visited, State(), i, drop)
      modifies this`curNum, this`index, ppArray, known`index
      ensures Valid() && curNum - j < old(curNum) - i
      ensures OptionOf(q) == At(State(), j)
      ensures Scanning(before, visited + [p], State(), j, drop)
    {
      ScanStep(State(), i);
      ScanMoves(before, visited, State(), i, drop);
      if p in drop {
        q := Delete(p);
        j := i;
      } else {
        q := Next(p);
        j := i + 1;
      }
    }
  }

  /** The elements a sequence of operations names. */
  function Named(ops: seq<Op<ForwarderSession>>): set<ForwarderSession> {
    set op | op in ops && !op.OpGet? :: op.x
  }

  /** The element an operation names, if any, is one of `pool`, and those are in this array or in
      none. */
  ghost predicate Serves(a: TypeArray, pool: set<ForwarderSession>)
    reads a, a.ppArray, a.known, a.allocator, pool
  {
    a.Valid() && forall x :: x in pool ==> a.Mine(x)
  }

  method InsertOne(a: TypeArray, x: ForwarderSession, ghost pool: set<ForwarderSession>)
    requires Serves(a, pool) && x in pool && HasRoom(a.State(), OpInsert(x))
    modifies a, a.ppArray, a.allocator, pool`index
    ensures Serves(a, pool) && a.known <= old(a.known) + pool
    ensures a.ppArray == old(a.ppArray) || fresh(a.ppArray)
    ensures a.State() == TypeArraySpec.Insert(old(a.State()), x)
    ensures a.allocator.blocks - {a.ppArray} == old(a.allocator.blocks) - {old(a.ppArray)}
  {
    a.Insert(x);
  }

  /** One operation; what it returns, if it is a Get on an array that is not empty. */
  method DriveOne(a: TypeArray, op: Op<ForwarderSession>, ghost pool: set<ForwarderSession>)
    returns (returned: seq<ForwarderSession?>)
    requires Serves(a, pool) && (!op.OpGet? ==> op.x in pool)
    requires HasRoom(a.State(), op)
    modifies a, a.ppArray, a.allocator, a.known`index, pool`index
    ensures Serves(a, pool) && a.known <= old(a.known) + pool
    ensures a.ppArray == old(a.ppArray) || fresh(a.ppArray)
    ensures a.State() == TypeArraySpec.Do(old(a.State()), op)
    ensures returned == if op.OpGet? && old(a.State()).slots != []
                        then [TypeArraySpec.Get(old(a.State())).0.value] else []
    ensures a.allocator.blocks - {a.ppArray} == old(a.allocator.blocks) - {old(a.ppArray)}
  {
    match op {
      case OpInsert(x) =>
        InsertOne(a, x, pool);
        returned := [];
      case OpDelete(x) =>
        var _ := a.Delete(x);
        returned := [];
      case OpGet =>
        var p := a.Get();
        returned := if p == null then [] else [p];
    }
  }

  /** Any sequence of operations, one after the other, and everything its Gets return: so the
      rotation theorems of the specification are about this array too. */
  method Drive(a: TypeArray, ops: seq<Op<ForwarderSession>>, ghost pool: set<ForwarderSession>)
    returns (returned: seq<ForwarderSession?>)
    requires Serves(a, pool) && Named(ops) <= pool
    requires Fits(Elements(a.State().slots), ops)
    modifies a, a.ppArray, a.allocator, a.known`index, pool`index
    ensures Serves(a, pool) && a.known <= old(a.known) + pool
    ensures a.State() == TypeArraySpec.Run(old(a.State()), ops)
    ensures returned == Returned(old(a.State()), ops)
    ensures a.allocator.blocks - {a.ppArray} == old(a.allocator.blocks) - {old(a.ppArray)}
    decreases |ops|
  {
    if ops == [] {
      return [];
    }
    NamedFirst(ops);
    FitsFirst(a.State(), ops);
    var first := DriveOne(a, ops[0], pool);
    var rest := Drive(a, ops[1..], pool);
    returned := first + rest;
  }

  lemma NamedFirst(ops: seq<Op<ForwarderSession>>)
    requires ops != []
    ensures Named(ops[1..]) <= Named(ops) && (!ops[0].OpGet? ==> ops[0].x in Named(ops))
  {
    assert ops[0] in ops;
  }

  /** A whole life: construction, any operations on elements that are in no array, destruction.
      The allocator is left exactly as it was found. */
  method WholeLife(allocator: SizedAllocator, ops: seq<Op<ForwarderSession>>)
    requires forall x :: x in Named(ops) ==> x.index == NO_INDEX
    requires Fits<ForwarderSession?>({}, ops)
    modifies allocator, Named(ops)`index
    ensures allocator.blocks == old(allocator.blocks)
  {
    var a := new TypeArray(allocator);
    var _ := Drive(a, ops, Named(ops));
    a.Destroy();
  }

  function OptionOf(p: ForwarderSession?): Option<ForwarderSession?> {
    if p == null then None else Some(p)
  }
}
