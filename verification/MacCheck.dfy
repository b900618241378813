/**
 Whether the machine is still the one the agent was installed on: the hardware addresses of its network
 interfaces are compared with those recorded, as substrings of lists of bracketed addresses.
 */
module MacCheck {

  const WIDTH: nat := 19  // a bracketed address
  const INT32_MAX: nat := 0x7FFF_FFFF
  const ZEROS: Mac := "00:00:00:00:00:00"

  const ZERO_TOKEN: string := "[00:00:00:00:00:00]"

  type Mac = m: string | |m| == 17 && '[' !in m && ']' !in m witness "00:00:00:00:00:00"

  datatype Interface = Interface(kind: string, mac: Mac)

  // ----- Lists of addresses as strings -----

  function Join(macs: seq<Mac>): (s: string)
    ensures |s| == WIDTH * |macs|
  {
    if macs == [] then "" else Join(macs[..|macs| - 1]) + Bracket(macs[|macs| - 1])
  }

  function Bracket(mac: Mac): (s: string)
    ensures |s| == WIDTH
  {
    "[" + mac + "]"
  }

  lemma {:induction false} JoinAt(macs: seq<Mac>, k: nat)
    requires k < |macs|
    ensures Join(macs)[WIDTH * k..WIDTH * k + WIDTH] == Bracket(macs[k])
  {
    var n := |macs| - 1;
    var front, last := Join(macs[..n]), Bracket(macs[n]);
    var i := WIDTH * k;
    assert Join(macs) == front + last && |front| == WIDTH * n;
    if k < n {
      JoinAt(macs[..n], k);
      assert i + WIDTH <= |front| && (front + last)[i..i + WIDTH] == front[i..i + WIDTH];
    } else {
      assert i == |front| && (front + last)[i..i + WIDTH] == last;
    }
  }

  /** An opening bracket stands only where an address starts. */
  lemma BracketsAreAligned(macs: seq<Mac>, k: nat, r: nat)
    requires k < |macs| && r < WIDTH
    ensures Join(macs)[WIDTH * k + r] == '[' <==> r == 0
  {
    JoinAt(macs, k);
    assert Join(macs)[WIDTH * k + r] == Join(macs)[WIDTH * k..WIDTH * k + WIDTH][r];
    if 0 < r < WIDTH - 1 { assert Bracket(macs[k])[r] == macs[k][r - 1]; }
  }

  lemma BracketIsInjective(a: Mac, b: Mac)
    ensures Bracket(a) == Bracket(b) <==> a == b
  {
    assert Bracket(a)[1..18] == a && Bracket(b)[1..18] == b;
  }

  predicate Occurs(s: string, t: string, p: nat) { p + |t| <= |s| && s[p..p + |t|] == t }

  lemma AlignedHit(macs: seq<Mac>, mac: Mac, k: nat)
    requires k < |macs|
    ensures Occurs(Join(macs), Bracket(mac), WIDTH * k) <==> macs[k] == mac
  {
    JoinAt(macs, k);
    BracketIsInjective(macs[k], mac);
  }

  lemma OpensWithBracket(s: string, mac: Mac, p: nat)
    requires p < |s|
    ensures Occurs(s, Bracket(mac), p) ==> s[p] == '['
  {
    if Occurs(s, Bracket(mac), p) {
      assert s[p..p + WIDTH][0] == Bracket(mac)[0];
    }
  }

  lemma MisalignedMiss(macs: seq<Mac>, mac: Mac, k: nat, r: nat)
    requires 0 < r < WIDTH
    ensures !Occurs(Join(macs), Bracket(mac), WIDTH * k + r)
  {
    if k < |macs| {
      BracketsAreAligned(macs, k, r);
      OpensWithBracket(Join(macs), mac, WIDTH * k + r);
    }
  }

  /** A bracketed address is found in a list exactly where it is one of the addresses, never across two. */
  lemma HitsAreAligned(macs: seq<Mac>, mac: Mac, k: nat, r: nat)
    requires r < WIDTH
    ensures Occurs(Join(macs), Bracket(mac), WIDTH * k + r) <==> r == 0 && k < |macs| && macs[k] == mac
  {
    if r != 0 {
      MisalignedMiss(macs, mac, k, r);
    } else if k < |macs| {
      AlignedHit(macs, mac, k);
    }
  }

  lemma NotFound(s: string, macs: seq<Mac>, mac: Mac, p: nat)
    requires s == Join(macs) && mac !in macs
    ensures !Occurs(s, Bracket(mac), p)
  {
    var k, r := p / WIDTH, p % WIDTH;
    assert p == WIDTH * k + r;
    HitsAreAligned(macs, mac, k, r);
  }

  lemma FoundIffListed(s: string, macs: seq<Mac>, mac: Mac)
    requires s == Join(macs)
    ensures (exists p: nat :: Occurs(s, Bracket(mac), p)) <==> mac in macs
  {
    if mac in macs {
      var k :| 0 <= k < |macs| && macs[k] == mac;
      AlignedHit(macs, mac, k);
      assert Occurs(s, Bracket(mac), WIDTH * k);
    } else {
      forall p: nat ensures !Occurs(s, Bracket(mac), p) { NotFound(s, macs, mac, p); }
    }
  }

  // ----- Specification -----

  function NonZero(macs: seq<Mac>): set<Mac> { set m | m in macs && m != ZEROS }

  predicate MustReset(recorded: seq<Mac>, current: seq<Mac>) {
    recorded != [] && NonZero(current) != {} && NonZero(current) !! NonZero(recorded)
  }

  function Recorded(recorded: seq<Mac>, current: seq<Mac>): seq<Mac> {
    if current != [] && (recorded == [] || MustReset(recorded, current)) then current else recorded
  }

  // ----- The agent's side -----

  function Kept(interfaces: seq<Interface>): seq<Mac> {
    if interfaces == [] then []
    else
      var last := interfaces[|interfaces| - 1];
      Kept(interfaces[..|interfaces| - 1])
      + (if last.kind == "ethernet" || last.kind == "wireless" then [last.mac] else [])
  }

  /** The list holds the addresses of the wired and wireless interfaces, and in their order. */
  lemma {:induction false} KeptIff(interfaces: seq<Interface>, m: Mac)
    ensures m in Kept(interfaces) <==>
            Interface("ethernet", m) in interfaces || Interface("wireless", m) in interfaces
  {
    if interfaces != [] {
      var n := |interfaces| - 1;
      KeptIff(interfaces[..n], m);
      assert interfaces == interfaces[..n] + [interfaces[n]];
    }
  }

  lemma {:induction false} KeptInOrder(a: seq<Interface>, b: seq<Interface>)
    ensures Kept(a + b) == Kept(a) + Kept(b)
    decreases |b|
  {
    if b == [] {
      assert a + b == a;
    } else {
      var n := |b| - 1;
      KeptInOrder(a, b[..n]);
      assert (a + b)[..|a + b| - 1] == a + b[..n];
    }
  }

  method GetMac(interfaces: seq<Interface>) returns (ret: string)
    ensures ret == Join(Kept(interfaces))
  {
    ret := "";
    for i := 0 to |interfaces|
      invariant ret == Join(Kept(interfaces[..i]))
    {
      ghost var kept := Kept(interfaces[..i]);
      assert interfaces[..i + 1][..i] == interfaces[..i];
      if interfaces[i].kind == "ethernet" || interfaces[i].kind == "wireless" {
        ret := ret + ("[" + interfaces[i].mac + "]");
        assert (kept + [interfaces[i].mac])[..|kept|] == kept;
      } else {
        assert kept + [] == kept;
      }
    }
    assert interfaces[..|interfaces|] == interfaces;
  }

  method IndexOf(s: string, t: string) returns (index: int)
    requires |s| <= INT32_MAX
    ensures 0 <= index ==> Occurs(s, t, index) && forall p: nat :: p < index ==> !Occurs(s, t, p)
    ensures index < 0 ==> forall p: nat :: !Occurs(s, t, p)
  {
    if |t| > |s| { return -1; }
    index := 0;
    while index <= |s| - |t|
      invariant 0 <= index <= |s| - |t| + 1
      invariant forall p: nat :: p < index ==> !Occurs(s, t, p)
    {
      if s[index..index + |t|] == t { return index; }
      index := index + 1;
    }
    index := -1;
  }

  lemma SearchMeansListed(s: string, current: seq<Mac>, m: Mac, index: int)
    requires s == Join(current)
    requires index >= 0 ==> Occurs(s, Bracket(m), index)
    requires index < 0 ==> forall p: nat :: !Occurs(s, Bracket(m), p)
    ensures index >= 0 <==> m in current
  {
    FoundIffListed(s, current, m);
    if index >= 0 {
      var p: nat := index;
      assert Occurs(s, Bracket(m), p);
    }
  }

  lemma TokenIsZeros(macs: seq<Mac>, k: nat)
    requires k < |macs|
    ensures WIDTH * k + WIDTH <= |Join(macs)|
    ensures Join(macs)[WIDTH * k..WIDTH * k + WIDTH] == Bracket(macs[k])
    ensures Bracket(macs[k]) == ZERO_TOKEN <==> macs[k] == ZEROS
  {
    JoinAt(macs, k);
    BracketIsInjective(macs[k], ZEROS);
    assert Bracket(ZEROS) == ZERO_TOKEN;
  }

  /** Skips the all-zero addresses at the start of a list. */
  method SkipZeros(mac: string, ghost current: seq<Mac>) returns (i: nat)
    requires mac == Join(current)
    ensures i < |mac| <==> NonZero(current) != {}
  {
    i := 0;
    ghost var k := 0;
    while i < |mac|
      invariant i == WIDTH * k && k <= |current|
      invariant forall j :: 0 <= j < k ==> current[j] == ZEROS
    {
      TokenIsZeros(current, k);
      if mac[i..i + WIDTH] != ZERO_TOKEN {
        assert current[k] in NonZero(current);
        return;
      }
      i, k := i + WIDTH, k + 1;
    }
  }

  /** Looks for a recorded address, other than zeros, among the current ones. */
  method FindShared(curr: string, mac: string, ghost recorded: seq<Mac>, ghost current: seq<Mac>) returns (i: nat)
    requires curr == Join(recorded) && mac == Join(current) && |mac| <= INT32_MAX
    ensures i >= |curr| <==> NonZero(current) !! NonZero(recorded)
  {
    i := 0;
    ghost var k := 0;
    while i < |curr|
      invariant i == WIDTH * k && k <= |recorded|
      invariant forall j :: 0 <= j < k ==> recorded[j] == ZEROS || recorded[j] !in current
    {
      TokenIsZeros(recorded, k);
      if curr[i..i + WIDTH] != ZERO_TOKEN {
        var index := IndexOf(mac, curr[i..i + WIDTH]);
        SearchMeansListed(mac, current, recorded[k], index);
        if index >= 0 {
          assert recorded[k] in NonZero(current) && recorded[k] in NonZero(recorded);
          return;
        }
      }
      i, k := i + WIDTH, k + 1;
    }
  }

  class Database {
    /** "LocalMacAddresses"; empty when there is no such entry. */
    var localMacAddresses: string
    ghost var recorded: seq<Mac>

    ghost predicate Valid()
      reads this
    {
      localMacAddresses == Join(recorded)
    }

    constructor ()
      ensures Valid() && recorded == []
    {
      localMacAddresses, recorded := "", [];
    }

    method CheckMacs(mac: string, ghost current: seq<Mac>) returns (resetNodeId: bool)
      requires Valid() && mac == Join(current) && |mac| <= INT32_MAX
      modifies this
      ensures Valid()
      ensures resetNodeId <==> MustReset(old(recorded), current)
      ensures recorded == Recorded(old(recorded), current)
    {
      resetNodeId := false;
      if |mac| < WIDTH { return; }
      if |localMacAddresses| == 0 {
        localMacAddresses, recorded := mac, current;
        return;
      }
      var i := SkipZeros(mac, current);
      if i < |mac| {
        i := FindShared(localMacAddresses, mac, recorded, current);
        if i >= |localMacAddresses| {
          resetNodeId := true;
          localMacAddresses, recorded := mac, current;
        }
      }
    }
  }

  // ----- Runs of checks, one each time the agent starts -----

  function RecordedAfter(recorded: seq<Mac>, checks: seq<seq<Mac>>): seq<Mac>
    decreases |checks|
  {
    if checks == [] then recorded else RecordedAfter(Recorded(recorded, checks[0]), checks[1..])
  }

  predicate Resets(recorded: seq<Mac>, checks: seq<seq<Mac>>)
    decreases |checks|
  {
    checks != [] && (MustReset(recorded, checks[0]) || Resets(Recorded(recorded, checks[0]), checks[1..]))
  }

  /** Checking again with the same interfaces never resets again, nor does it change the record. */
  lemma {:induction false} CheckedOnceIsSettled(recorded: seq<Mac>, current: seq<Mac>, again: nat)
    ensures var next := Recorded(recorded, current);
      var checks := seq(again, i => current);
      !Resets(next, checks) && RecordedAfter(next, checks) == next
    decreases again
  {
    var next := Recorded(recorded, current);
    if NonZero(current) != {} {
      var m :| m in NonZero(current);
      assert next == current ==> m in NonZero(next);
    }
    if again > 0 {
      CheckedOnceIsSettled(next, current, again - 1);
      assert seq(again, i => current)[1..] == seq(again - 1, i => current);
    }
  }

  predicate Shares(a: seq<Mac>, b: seq<Mac>) { !(NonZero(a) !! NonZero(b)) }

  /** There are addresses now, and none of those recorded is among them; one of zeros stands for none. */
  predicate Lost(recorded: seq<Mac>, current: seq<Mac>) {
    && (exists m: Mac :: m in current && m != "00:00:00:00:00:00")
    && forall m: Mac :: m in current && m in recorded ==> m == "00:00:00:00:00:00"
  }

  lemma LostMeansNoneShared(recorded: seq<Mac>, current: seq<Mac>)
    ensures Lost(recorded, current) <==> NonZero(current) != {} && !Shares(current, recorded)
  {
    if m: Mac :| m in current && m != ZEROS { assert m in NonZero(current); }
    if !Lost(recorded, current) {
      if m: Mac :| m in current && m in recorded && m != ZEROS {
        assert m in NonZero(current) && m in NonZero(recorded);
      }
    }
  }

  /** What one check does with a record, or without one. */
  lemma CheckOutcome(recorded: seq<Mac>, current: seq<Mac>)
    ensures MustReset(recorded, current) <==> recorded != [] && Lost(recorded, current)
    ensures Recorded(recorded, current) == if recorded == [] || Lost(recorded, current) then current else recorded
  {
    LostMeansNoneShared(recorded, current);
  }

  /**
   The record of a run in which nothing is reset is still the first one; so a run resets exactly when some
   check finds addresses but none of the first list: what is compared is the first list, not the previous one.
   */
  lemma {:induction false} ResetIffFirstListIsLost(recorded: seq<Mac>, checks: seq<seq<Mac>>)
    requires recorded != []
    ensures Resets(recorded, checks) <==>
            exists i :: 0 <= i < |checks| && Lost(recorded, checks[i])
    ensures !Resets(recorded, checks) ==> RecordedAfter(recorded, checks) == recorded
    decreases |checks|
  {
    if checks != [] {
      CheckOutcome(recorded, checks[0]);
      if !MustReset(recorded, checks[0]) {
        var rest := checks[1..];
        ResetIffFirstListIsLost(recorded, rest);
        if i :| 0 <= i < |rest| && Lost(recorded, rest[i]) {
          assert checks[i + 1] == rest[i];
        }
        if i :| 0 <= i < |checks| && Lost(recorded, checks[i]) {
          assert i > 0 && rest[i - 1] == checks[i];
        }
      }
    }
  }

  /** So replacing the interfaces one at a time resets too, although each list shares one with the next. */
  lemma GradualChangeResets(a: Mac, b: Mac)
    requires a != b && a != ZEROS && b != ZEROS
    ensures Shares([a], [a, b]) && Shares([a, b], [b]) && Resets([a], [[a, b], [b]])
  {
    assert a in NonZero([a]) && a in NonZero([a, b]) && b in NonZero([a, b]) && b in NonZero([b]);
    var checks := [[a, b], [b]];
    ResetIffFirstListIsLost([a], checks);
    assert b in checks[1] && Lost([a], checks[1]);
  }
}
