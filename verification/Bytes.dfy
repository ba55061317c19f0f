/** Big-endian unsigned integers as bytes. */
module BigEndian {
  newtype Byte = x: int | 0 <= x < 256

  type Bytes = seq<Byte>

  function Pow256(k: nat): nat {
    if k == 0 then 1 else 256 * Pow256(k - 1)
  }

  function Pack(n: nat, k: nat): (b: Bytes)
    ensures |b| == k
  {
    if k == 0 then [] else Pack(n / 256, k - 1) + [(n % 256) as Byte]
  }

  function Unpack(b: Bytes): nat {
    if b == [] then 0 else 256 * Unpack(b[..|b| - 1]) + b[|b| - 1] as nat
  }

  lemma {:induction false} UnpackPack(n: nat, k: nat)
    requires n < Pow256(k)
    ensures Unpack(Pack(n, k)) == n
  {
    if k > 0 {
      var high, low := Pack(n / 256, k - 1), [(n % 256) as Byte];
      assert (high + low)[..|high + low| - 1] == high;
      UnpackPack(n / 256, k - 1);
    }
  }

  lemma {:induction false} PackUnpack(b: Bytes)
    ensures Unpack(b) < Pow256(|b|) && Pack(Unpack(b), |b|) == b
  {
    if b != [] {
      PackUnpack(b[..|b| - 1]);
      assert Unpack(b) / 256 == Unpack(b[..|b| - 1]) && Unpack(b) % 256 == b[|b| - 1] as nat;
    }
  }

  lemma {:induction false} Widths()
    ensures Pow256(4) == 0x1_0000_0000 && Pow256(8) == 0x1_0000_0000_0000_0000
  {
    assert Pow256(2) == 65_536;
    assert Pow256(4) == 65_536 * 65_536;
    assert Pow256(6) == 65_536 * 65_536 * 65_536;
  }
}

/** Streams of self-delimiting items: a reader takes one item off the front until it cannot. */
module Framing {
  import opened Wrappers
  import opened BigEndian

  /** What a reader sees at the front: an item and the rest, or nothing it can take. */
  type Reader<!R> = Bytes -> Option<(R, Bytes)>

  /** The items a reader takes, and the bytes at which it stops. */
  function Items<R>(next: Reader<R>, s: Bytes): (seq<R>, Bytes)
    decreases |s|
  {
    var step := next(s);
    if step.None? || |step.value.1| >= |s| then ([], s)
    else
      var (more, rest) := Items(next, step.value.1);
      ([step.value.0] + more, rest)
  }

  function Concat<R>(block: R -> Bytes, rs: seq<R>): Bytes {
    if rs == [] then [] else block(rs[0]) + Concat(block, rs[1..])
  }

  /** The reader takes exactly this item off any stream that starts with its bytes. */
  ghost predicate Takes<R(!new)>(next: Reader<R>, block: R -> Bytes, r: R) {
    block(r) != [] && forall tail :: next(block(r) + tail) == Some((r, tail))
  }

  ghost predicate TakesAll<R(!new)>(next: Reader<R>, block: R -> Bytes, rs: seq<R>) {
    forall i | 0 <= i < |rs| :: Takes(next, block, rs[i])
  }

  /** What the reader leaves is the end of what it was given. */
  ghost predicate LeavesTail<R(!new)>(next: Reader<R>) {
    forall s: Bytes :: next(s).Some? ==>
      |next(s).value.1| < |s| && s == s[..|s| - |next(s).value.1|] + next(s).value.1
  }

  lemma {:induction false} ConcatSplit<R>(block: R -> Bytes, rs: seq<R>, k: nat)
    requires k <= |rs|
    ensures Concat(block, rs) == Concat(block, rs[..k]) + Concat(block, rs[k..])
  {
    if k == 0 {
      assert rs[0..] == rs;
      assert Concat(block, rs[..0]) == [];
    } else {
      ConcatSplit(block, rs[1..], k - 1);
      assert rs[1..][..k - 1] == rs[..k][1..] && rs[1..][k - 1..] == rs[k..];
    }
  }

  lemma {:induction false} ConcatCons<R>(block: R -> Bytes, r: R, rs: seq<R>)
    ensures Concat(block, [r] + rs) == block(r) + Concat(block, rs)
  {
    assert ([r] + rs)[1..] == rs;
  }

  lemma {:induction false} ConcatSnoc<R>(block: R -> Bytes, rs: seq<R>, r: R)
    ensures Concat(block, rs + [r]) == Concat(block, rs) + block(r)
  {
    ConcatSplit(block, rs + [r], |rs|);
    assert (rs + [r])[..|rs|] == rs && (rs + [r])[|rs|..] == [r];
    assert Concat(block, [r]) == block(r) + Concat(block, [r][1..]);
    assert block(r) + [] == block(r);
  }

  lemma {:induction false} ItemsStep<R>(next: Reader<R>, s: Bytes, r: R, rest: Bytes)
    requires next(s) == Some((r, rest)) && |rest| < |s|
    ensures Items(next, s) == ([r] + Items(next, rest).0, Items(next, rest).1)
  {
  }

  lemma {:induction false} ReadOne<R(!new)>(next: Reader<R>, block: R -> Bytes, r: R, tail: Bytes)
    requires Takes(next, block, r)
    ensures Items(next, block(r) + tail) == ([r] + Items(next, tail).0, Items(next, tail).1)
  {
    assert next(block(r) + tail) == Some((r, tail));
  }

  /** The items come back, followed by whatever the reader makes of the tail. */
  lemma {:induction false} ReadAll<R(!new)>(next: Reader<R>, block: R -> Bytes, rs: seq<R>, tail: Bytes)
    requires TakesAll(next, block, rs)
    ensures Items(next, Concat(block, rs) + tail) == (rs + Items(next, tail).0, Items(next, tail).1)
    decreases |rs|
  {
    var (more, rest) := Items(next, tail);
    if rs == [] {
      assert Concat(block, rs) + tail == tail;
      assert rs + more == more;
    } else {
      ReadAll(next, block, rs[1..], tail);
      ReadOne(next, block, rs[0], Concat(block, rs[1..]) + tail);
      assert block(rs[0]) + (Concat(block, rs[1..]) + tail) == Concat(block, rs) + tail;
      assert [rs[0]] + (rs[1..] + more) == rs + more;
    }
  }

  /** A reader that takes nothing off the tail returns exactly the items, and stops at the tail. */
  lemma {:induction false} ReadUpTo<R(!new)>(next: Reader<R>, block: R -> Bytes, rs: seq<R>, tail: Bytes)
    requires TakesAll(next, block, rs) && next(tail).None?
    ensures Items(next, Concat(block, rs) + tail) == (rs, tail)
  {
    ReadAll(next, block, rs, tail);
    assert rs + [] == rs;
  }

  lemma {:induction false} RestIsTail<R(!new)>(next: Reader<R>, s: Bytes)
    requires LeavesTail(next)
    ensures var rest := Items(next, s).1;
            next(rest).None? && |rest| <= |s| && s == s[..|s| - |rest|] + rest
    decreases |s|
  {
    var step := next(s);
    if step.Some? {
      var after := step.value.1;
      RestIsTail(next, after);
      var rest := Items(next, s).1;
      assert rest == Items(next, after).1;
      assert s[|s| - |rest|..] == after[|after| - |rest|..] by {
        assert after == s[|s| - |after|..];
      }
    }
  }

  /** How many of the items fit into the first `n` bytes. */
  function CompleteIn<R>(block: R -> Bytes, rs: seq<R>, n: nat): (k: nat)
    ensures k <= |rs|
  {
    if rs == [] || |block(rs[0])| > n then 0 else 1 + CompleteIn(block, rs[1..], n - |block(rs[0])|)
  }

  /** The first `n` bytes of a concatenation are the complete items and a strict part of the next one. */
  lemma {:induction false} CutConcat<R>(block: R -> Bytes, rs: seq<R>, n: nat)
    requires n < |Concat(block, rs)|
    ensures var k := CompleteIn(block, rs, n);
            && k < |rs| && |Concat(block, rs[..k])| <= n < |Concat(block, rs[..k])| + |block(rs[k])|
            && Concat(block, rs)[..n]
               == Concat(block, rs[..k]) + block(rs[k])[..n - |Concat(block, rs[..k])|]
    decreases |rs|
  {
    var k := CompleteIn(block, rs, n);
    var first := block(rs[0]);
    if |first| > n {
      assert rs[..0] == [];
      assert Concat(block, rs)[..n] == first[..n];
      assert [] + first[..n] == first[..n];
    } else {
      CutConcat(block, rs[1..], n - |first|);
      assert rs[..k][1..] == rs[1..][..k - 1];
      assert Concat(block, rs)[..n] == first + Concat(block, rs[1..])[..n - |first|];
    }
  }

  lemma {:induction false} AllComplete<R>(block: R -> Bytes, rs: seq<R>, n: nat)
    requires n >= |Concat(block, rs)|
    ensures CompleteIn(block, rs, n) == |rs|
    decreases |rs|
  {
    if rs != [] {
      AllComplete(block, rs[1..], n - |block(rs[0])|);
    }
  }
}
