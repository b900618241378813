/** Types shared by every part of the model. */
module Common {

  /** One octet, as a number. */
  newtype byte = x: int | 0 <= x < 256

  datatype Option<+T> = None | Some(value: T)

  /** Two octets as a number, the high one first. */
  function BE16(s: seq<byte>, at: nat): nat
    requires at + 2 <= |s|
  {
    0x100 * s[at] as nat + s[at + 1] as nat
  }

  /** The octets of a number, the high one first. */
  function ToBE16(n: nat): (s: seq<byte>)
    requires n < 0x1_0000
    ensures |s| == 2 && s[0] as int == n / 256 && s[1] as int == n % 256
    ensures BE16(s, 0) == n
  {
    [(n / 0x100) as byte, (n % 0x100) as byte]
  }

  function Zeros(n: nat): (s: seq<byte>)
    ensures |s| == n && forall i :: 0 <= i < n ==> s[i] == 0
  {
    seq(n, i => 0)
  }

  function Repeat<T>(n: nat, x: T): (s: seq<T>)
    ensures |s| == n && forall i :: 0 <= i < n ==> s[i] == x
  {
    if n == 0 then [] else [x] + Repeat(n - 1, x)
  }

  /** All the pieces of `parts`, one after another. */
  function Concat<T>(parts: seq<seq<T>>): seq<T> {
    if parts == [] then [] else parts[0] + Concat(parts[1..])
  }

  lemma {:induction false} ConcatSplits<T>(a: seq<seq<T>>, b: seq<seq<T>>)
    ensures Concat(a + b) == Concat(a) + Concat(b)
  {
    if a == [] {
      assert a + b == b;
    } else {
      var head, rest := a[0], a[1..];
      ConcatSplits(rest, b);
      assert a + b == [head] + (rest + b);
      assert head + (Concat(rest) + Concat(b)) == (head + Concat(rest)) + Concat(b);
    }
  }

  lemma ConcatOne<T>(a: seq<seq<T>>, x: seq<T>)
    ensures Concat(a + [x]) == Concat(a) + x
  {
    ConcatSplits(a, [x]);
    assert [x][1..] == [];
    assert Concat([x]) == x + Concat([]) == x;
  }
}
