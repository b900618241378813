/**
 Reassembly of control channel messages that the WebSocket layer could only hand up in pieces
 (fragmentation, section 5.4 of RFC 6455): the growable, capped buffer and its discard mode.
 */
module Reassembly {
  import opened Common

  const MAX_MESSAGE_SIZE: nat := 64 * 1024 * 1024
  const FIRST_ALLOCATION: nat := 131072

  /** What reaches the handler. `upgraded` says that the response header is present with status 101. */
  datatype Event =
    | Piece(data: seq<byte>, last: bool, upgraded: bool)
    | Established
    | Disconnected

  /** The part of the agent's state that decides what is delivered. */
  datatype View = View(pending: seq<byte>, discarding: bool)

  const EMPTY: View := View([], false)

  // ----- Specification of one event -----

  function Append(v: View, data: seq<byte>): View {
    if v.discarding then v
    else if |v.pending| + |data| > MAX_MESSAGE_SIZE then View([], true)
    else v.(pending := v.pending + data)
  }

  function Deliverable(message: seq<byte>): Option<seq<byte>> {
    if |message| >= 2 then Some(message) else None
  }

  function Step(v: View, e: Event): (View, Option<seq<byte>>) {
    match e
    case Piece(data, last, true) =>
      var w := Append(v, data);
      if last then (EMPTY, Deliverable(w.pending)) else (w, None)
    case _ => (EMPTY, None)
  }

  /** Everything handed to the command processor in a run. */
  function Delivered(v: View, events: seq<Event>): seq<seq<byte>>
    decreases |events|
  {
    if events == [] then []
    else
      var (w, message) := Step(v, events[0]);
      (if message.Some? then [message.value] else []) + Delivered(w, events[1..])
  }

  // ----- Reference: collect without any limit, then keep the messages of an allowed size -----

  predicate Allowed(message: seq<byte>) { 2 <= |message| <= MAX_MESSAGE_SIZE }

  function Kept(message: seq<byte>): seq<seq<byte>> {
    if Allowed(message) then [message] else []
  }

  function Reference(collected: seq<byte>, events: seq<Event>): seq<seq<byte>>
    decreases |events|
  {
    if events == [] then []
    else match events[0]
      case Piece(data, last, true) =>
        if last then Kept(collected + data) + Reference([], events[1..])
        else Reference(collected + data, events[1..])
      case _ => Reference([], events[1..])
  }

  /** The bounded buffer stands for the unlimited one: equal while it fits, discarding once it does not. */
  predicate Represents(v: View, collected: seq<byte>) {
    if v.discarding then v.pending == [] && |collected| > MAX_MESSAGE_SIZE
    else v.pending == collected && |collected| <= MAX_MESSAGE_SIZE
  }

  lemma {:induction false} DeliveredIsReference(v: View, collected: seq<byte>, events: seq<Event>)
    requires Represents(v, collected)
    ensures Delivered(v, events) == Reference(collected, events)
    decreases |events|
  {
    if events != [] {
      match events[0]
      case Piece(data, last, true) =>
        assert Represents(Append(v, data), collected + data);
        DeliveredIsReference(EMPTY, [], events[1..]);
        if !last { DeliveredIsReference(Append(v, data), collected + data, events[1..]); }
      case _ =>
        DeliveredIsReference(EMPTY, [], events[1..]);
    }
  }

  // ----- Messages, however they were fragmented -----

  /** The events of one complete message sent as the pieces `group`. */
  function Pieces(group: seq<seq<byte>>): seq<Event>
    requires group != []
  {
    if |group| == 1 then [Piece(group[0], true, true)]
    else [Piece(group[0], false, true)] + Pieces(group[1..])
  }

  predicate NoneEmpty(groups: seq<seq<seq<byte>>>) {
    forall i :: 0 <= i < |groups| ==> groups[i] != []
  }

  function Wire(groups: seq<seq<seq<byte>>>): seq<Event>
    requires NoneEmpty(groups)
  {
    if groups == [] then [] else Pieces(groups[0]) + Wire(groups[1..])
  }

  function AllowedMessages(groups: seq<seq<seq<byte>>>): seq<seq<byte>> {
    if groups == [] then [] else Kept(Concat(groups[0])) + AllowedMessages(groups[1..])
  }

  lemma {:induction false} GroupEndsClean(collected: seq<byte>, group: seq<seq<byte>>, rest: seq<Event>)
    requires group != []
    ensures Reference(collected, Pieces(group) + rest)
         == Kept(collected + Concat(group)) + Reference([], rest)
    decreases |group|
  {
    var events := Pieces(group) + rest;
    if |group| == 1 {
      assert events[1..] == rest;
      assert Concat(group) == group[0] + Concat(group[1..]) == group[0];
    } else {
      assert events[1..] == Pieces(group[1..]) + rest;
      GroupEndsClean(collected + group[0], group[1..], rest);
      assert collected + Concat(group) == (collected + group[0]) + Concat(group[1..]);
    }
  }

  lemma {:induction false} WireReference(groups: seq<seq<seq<byte>>>, tail: seq<Event>)
    requires NoneEmpty(groups)
    ensures Reference([], Wire(groups) + tail) == AllowedMessages(groups) + Reference([], tail)
    decreases |groups|
  {
    if groups == [] {
      assert Wire(groups) + tail == tail;
    } else {
      GroupEndsClean([], groups[0], Wire(groups[1..]) + tail);
      WireReference(groups[1..], tail);
      assert Wire(groups) + tail == Pieces(groups[0]) + (Wire(groups[1..]) + tail);
      assert [] + Concat(groups[0]) == Concat(groups[0]);
    }
  }

  /**
   Whatever the handler was doing before, a connection delivers exactly the messages of an allowed size,
   in order, whatever their fragmentation; an oversized one disappears without touching its neighbours,
   and pieces left unfinished when the connection ends are never delivered.
   */
  lemma {:induction false} FragmentationIsInvisible(v: View, groups: seq<seq<seq<byte>>>, unfinished: seq<seq<byte>>)
    requires NoneEmpty(groups)
    ensures Delivered(v, [Established] + Wire(groups) + Unfinished(unfinished) + [Disconnected])
         == AllowedMessages(groups)
  {
    var tail := Unfinished(unfinished) + [Disconnected];
    var events := [Established] + Wire(groups) + Unfinished(unfinished) + [Disconnected];
    assert events[1..] == Wire(groups) + tail;
    DeliveredIsReference(EMPTY, [], events[1..]);
    WireReference(groups, tail);
    UnfinishedDeliversNothing([], unfinished);
  }

  /** So one message of any size, however cut, is delivered exactly with 2 octets to 64 MiB. */
  lemma DeliveredIff(v: View, group: seq<seq<byte>>)
    requires group != []
    ensures var m := Concat(group);
      Delivered(v, [Established] + Pieces(group) + [Disconnected]) == if 2 <= |m| <= 67108864 then [m] else []
  {
    var groups := [group];
    FragmentationIsInvisible(v, groups, []);
    assert groups[1..] == [] && Wire(groups) == Pieces(group) + Wire(groups[1..]) == Pieces(group);
    assert [Established] + Wire(groups) + [] == [Established] + Pieces(group);
    assert AllowedMessages(groups) == Kept(Concat(group)) + AllowedMessages(groups[1..]);
  }

  function Unfinished(group: seq<seq<byte>>): seq<Event> {
    if group == [] then [] else [Piece(group[0], false, true)] + Unfinished(group[1..])
  }

  lemma {:induction false} UnfinishedDeliversNothing(collected: seq<byte>, group: seq<seq<byte>>)
    ensures Reference(collected, Unfinished(group) + [Disconnected]) == []
    decreases |group|
  {
    if group != [] {
      assert (Unfinished(group) + [Disconnected])[1..] == Unfinished(group[1..]) + [Disconnected];
      UnfinishedDeliversNothing(collected + group[0], group[1..]);
    }
  }

  // ----- Allocation sizes -----

  function Pow2(k: nat): nat { if k == 0 then 1 else 2 * Pow2(k - 1) }

  /** No buffer, or the first allocation doubled at most nine times. */
  ghost predicate IsCapacity(size: nat) {
    size == 0 || exists k: nat :: k <= 9 && size == FIRST_ALLOCATION * Pow2(k)
  }

  lemma {:induction false} PowMonotone(j: nat, k: nat)
    requires j <= k
    ensures Pow2(j) <= Pow2(k)
  {
    if j < k { PowMonotone(j, k - 1); }
  }

  /** A capacity that is still too small for an allowed message can be doubled: the clamp never shrinks it. */
  lemma DoublingStaysCapacity(size: nat)
    requires IsCapacity(size) && 0 < size < MAX_MESSAGE_SIZE
    ensures IsCapacity(2 * size) && 2 * size <= MAX_MESSAGE_SIZE
  {
    var k: nat :| k <= 9 && size == FIRST_ALLOCATION * Pow2(k);
    assert Pow2(9) == 512;
    assert k != 9;
    PowMonotone(k, 8);
    assert Pow2(8) == 256;
    assert 2 * size == FIRST_ALLOCATION * Pow2(k + 1);
  }

  lemma CapacityIsBounded(size: nat)
    requires IsCapacity(size)
    ensures size <= MAX_MESSAGE_SIZE
  {
    if size != 0 {
      var k: nat :| k <= 9 && size == FIRST_ALLOCATION * Pow2(k);
      PowMonotone(k, 9);
      assert Pow2(9) == 512;
    }
  }

  // ----- The agent's buffer -----

  class PartialBuffer {
    var buffer: array<byte>  // its length is the allocated size; length 0 stands for no buffer
    var len: nat
    var overflow: bool
    ghost var copied: nat    // bytes moved by reallocation for the message being collected

    ghost predicate Valid()
      reads this, buffer
    {
      && len <= buffer.Length
      && IsCapacity(buffer.Length)
      && (buffer.Length == 0 ==> copied == 0)
      && (buffer.Length > 0 ==> copied < buffer.Length && len > 0)
      && (overflow ==> len == 0)
    }

    ghost function Abs(): View
      reads this, buffer
      requires Valid()
    {
      View(buffer[..len], overflow)
    }

    constructor ()
      ensures Valid() && Abs() == EMPTY && fresh(buffer)
    {
      buffer := new byte[0];
      len, overflow, copied := 0, false, 0;
    }

    method ResetPartial()
      requires Valid()
      modifies this
      ensures Valid() && Abs().pending == [] && fresh(buffer)
      ensures overflow == old(overflow) && buffer.Length == 0
    {
      buffer := new byte[0];
      len, copied := 0, 0;
    }

    /** Makes room for `needed` bytes in all, keeping what is there. */
    method Grow(needed: nat)
      requires Valid() && buffer.Length < needed <= MAX_MESSAGE_SIZE
      modifies this
      ensures needed <= buffer.Length <= MAX_MESSAGE_SIZE && IsCapacity(buffer.Length) && fresh(buffer)
      ensures buffer.Length <= FIRST_ALLOCATION || buffer.Length < 2 * needed
      ensures copied < buffer.Length && len == old(len) && overflow == old(overflow)
      ensures buffer[..len] == old(buffer[..len])
    {
      var newSize := if buffer.Length == 0 then FIRST_ALLOCATION else buffer.Length;
      assert FIRST_ALLOCATION == FIRST_ALLOCATION * Pow2(0);
      while newSize < needed
        invariant IsCapacity(newSize) && FIRST_ALLOCATION <= newSize
        invariant newSize == FIRST_ALLOCATION || newSize < 2 * needed
        invariant newSize == buffer.Length || (newSize >= FIRST_ALLOCATION && newSize >= 2 * buffer.Length)
        decreases needed - newSize
        modifies {}
      {
        DoublingStaysCapacity(newSize);
        newSize := newSize * 2;
      }
      CapacityIsBounded(newSize);
      if newSize > MAX_MESSAGE_SIZE { newSize := MAX_MESSAGE_SIZE; }

      var tmp := new byte[newSize];
      forall i | 0 <= i < len { tmp[i] := buffer[i]; }
      copied := copied + buffer.Length;
      buffer := tmp;
    }

    /** Answers whether the message has become too large; otherwise the data is at the end of the buffer. */
    method AppendPartial(data: seq<byte>) returns (tooLarge: bool)
      requires Valid() && !overflow
      modifies this, buffer
      ensures Valid() && !overflow
      ensures tooLarge <==> |old(Abs().pending)| + |data| > MAX_MESSAGE_SIZE
      ensures Abs().pending == if tooLarge then old(Abs().pending) else old(Abs().pending) + data
      ensures buffer == old(buffer) || fresh(buffer)
      ensures buffer != old(buffer) ==> buffer.Length <= FIRST_ALLOCATION || buffer.Length < 2 * len
      ensures old(buffer.Length) <= buffer.Length <= MAX_MESSAGE_SIZE
    {
      CapacityIsBounded(buffer.Length);
      if |data| <= 0 { return false; }
      if |data| > MAX_MESSAGE_SIZE - len { return true; }

      var needed := len + |data|;
      if needed > buffer.Length { Grow(needed); }
      ghost var before := buffer[..len];
      forall i | 0 <= i < |data| { buffer[len + i] := data[i]; }
      assert buffer[..needed] == before + data;
      len := needed;
      return false;
    }

    /** The Partial / LastPartial arm of the response handler. */
    method OnPiece(data: seq<byte>, last: bool, upgraded: bool) returns (message: Option<seq<byte>>)
      requires Valid()
      modifies this, buffer
      ensures Valid() && (buffer == old(buffer) || fresh(buffer))
      ensures (Abs(), message) == Step(old(Abs()), Piece(data, last, upgraded))
      ensures last || !upgraded ==> buffer.Length == 0 && copied == 0
    {
      message := None;
      if !upgraded {
        ResetPartial();
        overflow := false;
        return;
      }
      if !overflow {
        var tooLarge := AppendPartial(data);
        if tooLarge {
          ResetPartial();
          overflow := true;
        }
      }
      if last {
        var detached, detachedLen := buffer, len;
        buffer := new byte[0];
        len, copied := 0, 0;
        overflow := false;
        if detached.Length != 0 && detachedLen >= 2 { message := Some(detached[..detachedLen]); }
      }
    }

    /** What the Connection_Established and Complete arms do to the buffer. */
    method OnBoundary(e: Event)
      requires Valid() && !e.Piece?
      modifies this
      ensures Valid() && fresh(buffer)
      ensures Abs() == Step(old(Abs()), e).0 && Step(old(Abs()), e).1 == None
    {
      ResetPartial();
      overflow := false;
    }
  }
}
