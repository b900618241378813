/**
 The 22 native entry points that script callbacks are given: a list of free ones, taken at one end and returned
 at the other, and three tables that say what a call into each of them does.
 */
module CallbackPool {
  import opened Common

  const SLOTS: nat := 22

  type Emitter = nat

  /** The free slots, in the order of the list; who hears the calls to a slot, and its number of parameters. */
  datatype View = View(free: seq<nat>, slots: seq<Option<Emitter>>, params: seq<int>)

  datatype Op =
    | Get(numParms: int, emitter: Emitter)
    | Put(index: nat)

  // ----- Specification -----

  function Descending(n: nat): (s: seq<nat>)
    ensures |s| == n
  {
    if n == 0 then [] else [n - 1] + Descending(n - 1)
  }

  function Reverse(s: seq<nat>): (r: seq<nat>)
    ensures |r| == |s|
  {
    if s == [] then [] else Reverse(s[1..]) + [s[0]]
  }

  function Initial(): View { View(Reverse(Descending(SLOTS)), Repeat(SLOTS, None), Repeat(SLOTS, 0)) }

  /** A call fails for want of a parameter or of a free slot, and then changes nothing. */
  predicate Succeeds(v: View, op: Op) { op.Get? ==> op.numParms >= 1 && v.free != [] }

  /** The slot a successful Get hands out. */
  function Handed(v: View): nat
    requires v.free != []
  {
    v.free[|v.free| - 1]
  }

  predicate WellFormed(v: View) {
    |v.slots| == |v.params| == SLOTS && forall i :: 0 <= i < |v.free| ==> v.free[i] < SLOTS
  }

  predicate InRange(op: Op) { op.Put? ==> op.index < SLOTS }

  function Step(v: View, op: Op): (w: View)
    requires WellFormed(v) && InRange(op)
    ensures WellFormed(w)
  {
    if !Succeeds(v, op) then v
    else match op
      case Get(numParms, emitter) =>
        View(v.free[..|v.free| - 1], v.slots[Handed(v) := Some(emitter)], v.params[Handed(v) := numParms])
      case Put(index) => View([index] + v.free, v.slots[index := None], v.params[index := 0])
  }

  predicate AllInRange(ops: seq<Op>) { forall i :: 0 <= i < |ops| ==> InRange(ops[i]) }

  function Run(v: View, ops: seq<Op>): (w: View)
    requires WellFormed(v) && AllInRange(ops)
    ensures WellFormed(w)
    decreases |ops|
  {
    if ops == [] then v else Run(Step(v, ops[0]), ops[1..])
  }

  // ----- The partition -----

  predicate Distinct(s: seq<nat>) { forall i, j :: 0 <= i < j < |s| ==> s[i] != s[j] }

  /** Every slot is either free, once, or in use. */
  predicate Partition(v: View) {
    && WellFormed(v)
    && Distinct(v.free)
    && forall i :: 0 <= i < SLOTS ==> (i in v.free <==> v.slots[i].None?)
  }

  lemma {:induction false} ReverseMembers(s: seq<nat>, x: nat)
    ensures x in Reverse(s) <==> x in s
  {
    if s != [] {
      ReverseMembers(s[1..], x);
      assert s == [s[0]] + s[1..];
    }
  }

  lemma {:induction false} ReverseDistinct(s: seq<nat>)
    requires Distinct(s)
    ensures Distinct(Reverse(s))
  {
    if s != [] {
      var r := Reverse(s[1..]);
      ReverseDistinct(s[1..]);
      ReverseMembers(s[1..], s[0]);
      assert s[0] !in s[1..];
      forall i, j | 0 <= i < j < |s| ensures Reverse(s)[i] != Reverse(s)[j] {
        assert Reverse(s)[i] == r[i] && (j < |r| ==> Reverse(s)[j] == r[j]) && r[i] in r;
      }
    }
  }

  lemma {:induction false} DescendingMembers(n: nat)
    ensures Distinct(Descending(n)) && forall x: nat :: x in Descending(n) <==> x < n
  {
    if n > 0 {
      var rest := Descending(n - 1);
      DescendingMembers(n - 1);
      assert Descending(n) == [n - 1] + rest;
      forall i, j | 0 <= i < j < n ensures Descending(n)[i] != Descending(n)[j] {
        assert Descending(n)[j] == rest[j - 1] && rest[j - 1] in rest;
      }
    }
  }

  lemma InitialPartition()
    ensures Partition(Initial())
  {
    var all := Descending(SLOTS);
    DescendingMembers(SLOTS);
    ReverseDistinct(all);
    forall x: nat ensures x in Reverse(all) <==> x < SLOTS { ReverseMembers(all, x); }
    forall i | 0 <= i < SLOTS ensures Reverse(all)[i] < SLOTS { assert Reverse(all)[i] in Reverse(all); }
  }

  /** Getting a slot always keeps the partition; releasing one keeps it exactly when that slot is in use. */
  lemma PartitionKeptIff(v: View, op: Op)
    requires Partition(v) && InRange(op)
    ensures Partition(Step(v, op)) <==> (op.Put? ==> v.slots[op.index].Some?)
  {
    var w := Step(v, op);
    match op {
      case Get(_, _) =>
        if Succeeds(v, op) {
          var n := |v.free| - 1;
          assert forall i :: i in v.free <==> i in w.free || i == v.free[n];
          assert v.free[n] !in w.free;
        }
      case Put(index) =>
        assert w.free[0] == index;
        assert forall i :: i in w.free <==> i in v.free || i == index;
        if v.slots[index].None? {
          var k :| 0 <= k < |v.free| && v.free[k] == index;
          assert w.free[k + 1] == index;
        }
    }
  }

  /** Each release is of a slot that is in use at the time. */
  predicate Orderly(v: View, ops: seq<Op>)
    requires WellFormed(v) && AllInRange(ops)
    decreases |ops|
  {
    ops == [] ||
    ((ops[0].Put? ==> v.slots[ops[0].index].Some?) && Orderly(Step(v, ops[0]), ops[1..]))
  }

  lemma {:induction false} OrderlyRunsKeepThePartition(v: View, ops: seq<Op>)
    requires Partition(v) && AllInRange(ops) && Orderly(v, ops)
    ensures Partition(Run(v, ops))
    decreases |ops|
  {
    if ops != [] {
      PartitionKeptIff(v, ops[0]);
      OrderlyRunsKeepThePartition(Step(v, ops[0]), ops[1..]);
    }
  }

  // ----- First released, first reused -----

  /** The slots handed out in a run, in order. */
  function HandedOut(v: View, ops: seq<Op>): seq<nat>
    requires WellFormed(v) && AllInRange(ops)
    decreases |ops|
  {
    if ops == [] then []
    else (if ops[0].Get? && Succeeds(v, ops[0]) then [Handed(v)] else []) + HandedOut(Step(v, ops[0]), ops[1..])
  }

  function Released(ops: seq<Op>): seq<nat> {
    if ops == [] then [] else (if ops[0].Put? then [ops[0].index] else []) + Released(ops[1..])
  }

  lemma {:induction false} ReverseLast(s: seq<nat>)
    requires s != []
    ensures Reverse(s) == [s[|s| - 1]] + Reverse(s[..|s| - 1])
  {
    if |s| > 1 {
      ReverseLast(s[1..]);
      assert s[1..][..|s| - 2] == s[..|s| - 1][1..];
    } else {
      assert s[1..] == [] && s[..0] == [];
    }
  }

  /** In every run, the slots handed out and then the free ones are the slots free at first and then those released. */
  lemma {:induction false} FirstReleasedFirstReused(v: View, ops: seq<Op>)
    requires WellFormed(v) && AllInRange(ops)
    ensures HandedOut(v, ops) + Reverse(Run(v, ops).free) == Reverse(v.free) + Released(ops)
    decreases |ops|
  {
    if ops != [] {
      var w := Step(v, ops[0]);
      FirstReleasedFirstReused(w, ops[1..]);
      OneStep(v, ops[0], HandedOut(w, ops[1..]), Reverse(Run(v, ops).free), Released(ops[1..]));
    }
  }

  lemma OneStep(v: View, op: Op, handed: seq<nat>, freed: seq<nat>, released: seq<nat>)
    requires WellFormed(v) && InRange(op)
    requires handed + freed == Reverse(Step(v, op).free) + released
    ensures (if op.Get? && Succeeds(v, op) then [Handed(v)] else []) + handed + freed ==
            Reverse(v.free) + ((if op.Put? then [op.index] else []) + released)
  {
    assert [] + handed + freed == handed + freed && [] + released == released;
    if op.Put? {
      ReversePut(v.free, op.index);
      assert Reverse(v.free) + [op.index] + released == Reverse(v.free) + ([op.index] + released);
    } else if Succeeds(v, op) {
      ReverseLast(v.free);
      assert [Handed(v)] + handed + freed == [Handed(v)] + (handed + freed);
    }
  }

  lemma ReversePut(s: seq<nat>, x: nat)
    ensures Reverse([x] + s) == Reverse(s) + [x]
  {
    assert ([x] + s)[1..] == s;
  }

  /** From the start, slots are handed out as 21, 20, ... 0 and then in the order in which they were released. */
  lemma HandedOutInOrder(ops: seq<Op>)
    requires AllInRange(ops)
    ensures WellFormed(Initial())
    ensures HandedOut(Initial(), ops) <= Descending(SLOTS) + Released(ops)
  {
    InitialPartition();
    FirstReleasedFirstReused(Initial(), ops);
    ReverseTwice(Descending(SLOTS));
  }

  lemma {:induction false} ReverseTwice(s: seq<nat>)
    ensures Reverse(Reverse(s)) == s
  {
    if s != [] {
      ReverseTwice(s[1..]);
      var r := Reverse(s[1..]);
      ReverseLast(r + [s[0]]);
      assert (r + [s[0]])[..|r|] == r;
    }
  }

  /** A released slot rests while every slot that was free before it is handed out, and then is the next one. */
  lemma ReleasedSlotRests(v: View, index: nat, ops: seq<Op>)
    requires Partition(v) && index < SLOTS && v.slots[index].Some? && AllInRange(ops)
    ensures var handed := HandedOut(Step(v, Put(index)), ops);
      && (forall k :: 0 <= k < |handed| && k < |v.free| ==> handed[k] != index)
      && (|handed| > |v.free| ==> handed[|v.free|] == index)
  {
    var w := Step(v, Put(index));
    var handed := HandedOut(w, ops);
    FirstReleasedFirstReused(w, ops);
    ReversePut(v.free, index);
    var all := handed + Reverse(Run(w, ops).free);
    forall k | 0 <= k < |handed| && k < |v.free| ensures handed[k] != index {
      assert handed[k] == all[k] == Reverse(v.free)[k];
      ReverseMembers(v.free, handed[k]);
    }
    if |handed| > |v.free| { assert handed[|v.free|] == all[|v.free|]; }
  }

  /** A slot released twice is handed to two callers, one straight after the other. */
  lemma DoubleReleaseIsHandedOutTwice(v: View, index: nat, ops: seq<Op>)
    requires Partition(v) && index < SLOTS && v.slots[index].Some? && AllInRange(ops)
    ensures var twice := Step(Step(v, Put(index)), Put(index));
      var handed := HandedOut(twice, ops);
      |handed| >= |v.free| + 2 ==> handed[|v.free|] == index && handed[|v.free| + 1] == index
  {
    var once := Step(v, Put(index));
    var twice := Step(once, Put(index));
    var handed := HandedOut(twice, ops);
    FirstReleasedFirstReused(twice, ops);
    ReversePut(v.free, index);
    ReversePut(once.free, index);
    var all := handed + Reverse(Run(twice, ops).free);
    if |handed| >= |v.free| + 2 {
      assert handed[|v.free|] == all[|v.free|] && handed[|v.free| + 1] == all[|v.free| + 1];
    }
  }

  /** A released slot stays silent until it is handed out again. */
  lemma {:induction false} SilentUntilHandedOut(v: View, index: nat, ops: seq<Op>)
    requires WellFormed(v) && index < SLOTS && v.slots[index].None? && AllInRange(ops)
    requires index !in HandedOut(v, ops)
    ensures Run(v, ops).slots[index].None?
    decreases |ops|
  {
    if ops != [] { SilentUntilHandedOut(Step(v, ops[0]), index, ops[1..]); }
  }

  /** In every run, a slot handed out calls the one who asked for it, until it is released or handed out again. */
  lemma RegisteredUntilReleased(v: View, numParms: int, emitter: Emitter, ops: seq<Op>)
    requires WellFormed(v) && numParms >= 1 && v.free != [] && AllInRange(ops)
    requires var w := Step(v, Get(numParms, emitter)); Handed(v) !in HandedOut(w, ops) && Handed(v) !in Released(ops)
    ensures var w := Run(Step(v, Get(numParms, emitter)), ops);
      w.slots[Handed(v)] == Some(emitter) && w.params[Handed(v)] == numParms
  {
    EntriesStay(Step(v, Get(numParms, emitter)), Handed(v), ops);
  }

  lemma {:induction false} EntriesStay(v: View, index: nat, ops: seq<Op>)
    requires WellFormed(v) && AllInRange(ops) && index < SLOTS
    requires index !in HandedOut(v, ops) && index !in Released(ops)
    ensures Run(v, ops).slots[index] == v.slots[index] && Run(v, ops).params[index] == v.params[index]
    decreases |ops|
  {
    if ops != [] { EntriesStay(Step(v, ops[0]), index, ops[1..]); }
  }

  // ----- The tables -----

  datatype Call = Nothing | Dispatched(emitter: Emitter, args: seq<int>)

  /** The first `n` of the words on the caller's stack. */
  function Words(n: nat, words: nat -> int): (s: seq<int>)
    ensures |s| == n && forall i :: 0 <= i < n ==> s[i] == words(i)
  {
    if n == 0 then [] else Words(n - 1, words) + [words(n - 1)]
  }

  class Pool {
    const n: array<int>
    const active: array<bool>
    const nctx: array<Option<Emitter>>
    var created: bool
    var list: seq<nat>

    ghost predicate Valid()
      reads this, n, active, nctx
    {
      && n.Length == active.Length == nctx.Length == SLOTS
      && (forall i :: 0 <= i < SLOTS ==> active[i] == nctx[i].Some? && (active[i] ==> n[i] >= 1))
      && (forall i :: 0 <= i < |list| ==> list[i] < SLOTS)
      && (!created ==> forall i :: 0 <= i < SLOTS ==> !active[i])
    }

    ghost function Abs(): (v: View)
      requires Valid()
      reads this, n, active, nctx
      ensures WellFormed(v)
    {
      ListIsInRange();
      View(if created then list else Initial().free, nctx[..], n[..])
    }

    lemma ListIsInRange()
      ensures WellFormed(Initial())
    {
      InitialPartition();
    }

    constructor ()
      ensures Valid() && Abs() == Initial()
      ensures fresh(n) && fresh(active) && fresh(nctx)
    {
      n := new int[SLOTS](i => 0);
      active := new bool[SLOTS](i => false);
      nctx := new Option<Emitter>[SLOTS](i => None);
      created, list := false, [];
      new;
      assert nctx[..] == Repeat(SLOTS, None) && n[..] == Repeat(SLOTS, 0);
    }

    /** The list is made when the first callback is asked for. */
    method CreateList()
      requires Valid()
      modifies this
      ensures Valid() && created && Abs() == old(Abs())
    {
      if !created {
        ListIsInRange();
        var made := [];
        for i := 0 to SLOTS
          invariant made == Reverse(Descending(i))
        {
          ReversePut(Descending(i), i);
          made := made + [i];
        }
        list, created := made, true;
      }
    }

    method GetCallback(numParms: int, emitter: Emitter) returns (slot: Option<nat>)
      requires Valid()
      modifies this, n, active, nctx
      ensures Valid() && Abs() == Step(old(Abs()), Get(numParms, emitter))
      ensures slot == if Succeeds(old(Abs()), Get(numParms, emitter)) then Some(Handed(old(Abs()))) else None
    {
      CreateList();
      if numParms < 1 { return None; }
      if |list| == 0 { return None; }
      var index := list[|list| - 1];
      list := list[..|list| - 1];
      n[index], active[index], nctx[index] := numParms, true, Some(emitter);
      slot := Some(index);
    }

    method PutCallback(index: nat)
      requires Valid() && created && index < SLOTS
      modifies this, n, active, nctx
      ensures Valid() && created && Abs() == Step(old(Abs()), Put(index))
    {
      list := [index] + list;
      n[index], active[index], nctx[index] := 0, false, None;
    }

    /** A native call into a slot; `words` are the arguments on the caller's stack, as far as one looks. */
    method Process(index: nat, words: nat -> int) returns (call: Call)
      requires Valid() && index < SLOTS
      ensures Abs().slots[index].Some? ==> Abs().params[index] >= 1
      ensures Abs().slots[index].None? ==> call == Nothing
      ensures Abs().slots[index].Some? ==>
        call == Dispatched(Abs().slots[index].value, Words(Abs().params[index] + 1, words))
    {
      var count, emitter := n[index], nctx[index];
      if !active[index] { return Nothing; }
      var args := [];
      var i := 0;
      while i < count + 1
        invariant 0 <= i <= count + 1
        invariant args == Words(i, words)
      {
        args := args + [words(i)];
        i := i + 1;
      }
      call := Dispatched(emitter.value, args);
    }
  }

  /** A callback that is asked for and then called reaches the one who asked, with one word more than it asked for. */
  method GetAndCall(pool: Pool, numParms: int, emitter: Emitter, words: nat -> int)
    returns (call: Call, ghost some: bool)
    requires pool.Valid()
    modifies pool, pool.n, pool.active, pool.nctx
    ensures pool.Valid() && some == (old(pool.Abs()).free != [])
    ensures call == if numParms >= 1 && some then Dispatched(emitter, seq(numParms + 1, i requires 0 <= i => words(i)))
                    else Nothing
  {
    ghost var v := pool.Abs();
    some := v.free != [];
    var slot := pool.GetCallback(numParms, emitter);
    if slot.None? { return Nothing, some; }
    call := pool.Process(slot.value, words);
    assert Words(numParms + 1, words) == seq(numParms + 1, i requires 0 <= i => words(i));
  }
}
