/** One notification reaches a tab over up to three channels; a bounded set of nonces tells them apart. */
module Notifications {
  const LIMIT := 50

  /** The nonces remembered, and the notifications handed to the handler so far. */
  datatype Dedup = Dedup(seen: set<string>, handled: seq<string>)

  const FRESH := Dedup({}, [])

  function Emit(s: Dedup, nonce: string): Dedup {
    if nonce in s.seen then s
    else
      var seen := s.seen + {nonce};
      Dedup(if |seen| > LIMIT then {nonce} else seen, s.handled + [nonce])
  }

  function EmitAll(calls: seq<string>): Dedup {
    if calls == [] then FRESH else Emit(EmitAll(calls[..|calls| - 1]), calls[|calls| - 1])
  }

  /** Within each block of 50 handled notifications the nonces differ. */
  ghost predicate BlocksDiffer(handled: seq<string>) {
    forall i, j :: 0 <= i < j < |handled| && i / LIMIT == j / LIMIT ==> handled[i] != handled[j]
  }

  /** Where the last block begins. */
  function BlockStart(n: nat): nat {
    if n == 0 then 0 else (n - 1) / LIMIT * LIMIT
  }

  /** The block that is being filled, or was filled last. */
  function LastBlock(handled: seq<string>): seq<string> {
    BlockNext(|handled|);
    handled[BlockStart(|handled|)..]
  }

  ghost predicate Inv(s: Dedup) {
    BlocksDiffer(s.handled) && Holds(s.seen, LastBlock(s.handled))
  }

  /** The next notification joins the last block, or opens a new one when that is full. */
  lemma BlockNext(n: nat)
    ensures BlockStart(n + 1) == if n - BlockStart(n) == LIMIT then n else BlockStart(n)
    ensures BlockStart(n) <= n <= BlockStart(n) + LIMIT
    ensures forall i :: 0 <= i < n && i / LIMIT == n / LIMIT ==> BlockStart(n + 1) <= i
  {
  }

  lemma BlocksExtend(handled: seq<string>, nonce: string)
    requires BlocksDiffer(handled)
    requires forall k :: BlockStart(|handled| + 1) <= k < |handled| ==> handled[k] != nonce
    ensures BlocksDiffer(handled + [nonce])
  {
    BlockNext(|handled|);
  }

  ghost predicate Holds(seen: set<string>, block: seq<string>) {
    |seen| == |block| && forall n :: n in seen <==> n in block
  }

  lemma HoldsMore(seen: set<string>, block: seq<string>, nonce: string)
    requires Holds(seen, block) && nonce !in seen
    ensures Holds(seen + {nonce}, block + [nonce])
  {
  }

  lemma NextBlock(handled: seq<string>, nonce: string)
    ensures LastBlock(handled + [nonce])
         == if |LastBlock(handled)| == LIMIT then [nonce] else LastBlock(handled) + [nonce]
    ensures |LastBlock(handled)| <= LIMIT
  {
    BlockNext(|handled|);
  }

  lemma NotInBlock(handled: seq<string>, nonce: string)
    requires nonce !in LastBlock(handled)
    ensures forall k :: BlockStart(|handled| + 1) <= k < |handled| ==> handled[k] != nonce
  {
    BlockNext(|handled|);
    var start := BlockStart(|handled|);
    assert forall k :: start <= k < |handled| ==> handled[k] == handled[start..][k - start];
  }

  lemma EmitKeeps(s: Dedup, nonce: string)
    requires Inv(s)
    ensures Inv(Emit(s, nonce))
  {
    if nonce !in s.seen {
      NotInBlock(s.handled, nonce);
      BlocksExtend(s.handled, nonce);
      HoldsMore(s.seen, LastBlock(s.handled), nonce);
      NextBlock(s.handled, nonce);
    }
  }

  lemma {:induction false} RunInv(calls: seq<string>)
    ensures Inv(EmitAll(calls))
  {
    if calls != [] {
      RunInv(calls[..|calls| - 1]);
      EmitKeeps(EmitAll(calls[..|calls| - 1]), calls[|calls| - 1]);
    }
  }

  /** Over every run: blocks of 50 pairwise different nonces, and never more than 50 remembered. */
  lemma HandledInBlocks(calls: seq<string>)
    ensures |EmitAll(calls).seen| <= 50
    ensures var h := EmitAll(calls).handled;
      forall i, j :: 0 <= i < j < |h| && i / 50 == j / 50 ==> h[i] != h[j]
  {
    RunInv(calls);
  }

  /** nonce is in the block of 50 that is being filled, or was filled last. */
  ghost predicate InLastBlock(handled: seq<string>, nonce: string) {
    exists k :: 0 <= k < |handled| && (|handled| - 1) / 50 * 50 <= k && handled[k] == nonce
  }

  lemma LastBlockHas(handled: seq<string>, nonce: string)
    ensures nonce in LastBlock(handled) <==> InLastBlock(handled, nonce)
  {
    var start := BlockStart(|handled|);
    assert forall k :: start <= k < |handled| ==> handled[k] == handled[start..][k - start];
  }

  /** A call is suppressed exactly when its nonce is in that block; otherwise it is handled. */
  lemma SuppressedExactly(calls: seq<string>, nonce: string)
    ensures var h := EmitAll(calls).handled;
      EmitAll(calls + [nonce]).handled == if InLastBlock(h, nonce) then h else h + [nonce]
  {
    RunInv(calls);
    assert (calls + [nonce])[..|calls|] == calls;
    LastBlockHas(EmitAll(calls).handled, nonce);
  }

  lemma EmitLast(calls: seq<string>, nonce: string)
    ensures EmitAll(calls + [nonce]) == Emit(EmitAll(calls), nonce)
    ensures nonce in EmitAll(calls + [nonce]).seen
  {
    assert (calls + [nonce])[..|calls|] == calls;
  }

  /** The same nonce again, right after a call with it, is never handled. */
  lemma RepeatIsSuppressed(calls: seq<string>, nonce: string)
    ensures EmitAll(calls + [nonce, nonce]) == EmitAll(calls + [nonce])
  {
    EmitLast(calls, nonce);
    EmitLast(calls + [nonce], nonce);
    assert calls + [nonce] + [nonce] == calls + [nonce, nonce];
  }

  function Count(xs: seq<string>, x: string): nat {
    if xs == [] then 0 else (if xs[0] == x then 1 else 0) + Count(xs[1..], x)
  }

  lemma {:induction false} CountAppend(a: seq<string>, b: seq<string>, x: string)
    ensures Count(a + b, x) == Count(a, x) + Count(b, x)
  {
    if a == [] {
      assert a + b == b;
    } else {
      assert (a + b)[1..] == a[1..] + b;
      CountAppend(a[1..], b, x);
    }
  }

  lemma {:induction false} CountDistinct(xs: seq<string>, x: string)
    requires forall i, j :: 0 <= i < j < |xs| ==> xs[i] != xs[j]
    ensures Count(xs, x) <= 1
    ensures x !in xs ==> Count(xs, x) == 0
  {
    if xs != [] {
      CountDistinct(xs[1..], x);
    }
  }

  lemma {:induction false} CountInBlocks(handled: seq<string>, x: string)
    requires BlocksDiffer(handled)
    ensures Count(handled, x) <= (|handled| + LIMIT - 1) / LIMIT
    decreases |handled|
  {
    if |handled| <= LIMIT {
      CountDistinct(handled, x);
    } else {
      var first, rest := handled[..LIMIT], handled[LIMIT..];
      assert handled == first + rest;
      forall i, j | 0 <= i < j < |rest| && i / LIMIT == j / LIMIT
        ensures rest[i] != rest[j]
      {
        assert (i + LIMIT) / LIMIT == i / LIMIT + 1 && (j + LIMIT) / LIMIT == j / LIMIT + 1;
      }
      CountDistinct(first, x);
      CountInBlocks(rest, x);
      CountAppend(first, rest, x);
    }
  }

  /** Among h handled notifications one nonce occurs at most h/50 times, rounded up. */
  lemma RarelyHandledTwice(calls: seq<string>, nonce: string)
    ensures var h := EmitAll(calls).handled;
      Count(h, nonce) <= (|h| + 49) / 50
  {
    RunInv(calls);
    CountInBlocks(EmitAll(calls).handled, nonce);
  }

  /** The closure `emitOnce` with the set it works on. */
  class Subscription {
    var seenNonces: set<string>
    var handled: seq<string>

    constructor ()
      ensures State() == FRESH
    {
      seenNonces, handled := {}, [];
    }

    ghost function State(): Dedup
      reads this
    {
      Dedup(seenNonces, handled)
    }

    method EmitOnce(nonce: string)
      modifies this
      ensures State() == Emit(old(State()), nonce)
    {
      if nonce in seenNonces {
        return;
      }
      seenNonces := seenNonces + {nonce};
      if |seenNonces| > LIMIT {
        seenNonces := {};
        seenNonces := seenNonces + {nonce};
      }
      handled := handled + [nonce];
    }
  }
}
