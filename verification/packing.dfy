/** sendEncodedOperationsLocked of internal/display/client.go: greedy packing of operations into
    datagrams, and why no other packing needs fewer. */
module Packing {
  import opened Operations
  import opened Tiling

  const CAPACITY: nat := MAX_DATAGRAM_SIZE - PACKET_HEADER_SIZE

  type Bytes = seq<Byte>

  /** The operations one after the other, as the datagram carries them. */
  function Join(ops: seq<Bytes>): Bytes {
    if ops == [] then [] else Join(ops[..|ops| - 1]) + ops[|ops| - 1]
  }

  function Flatten(groups: seq<seq<Bytes>>): seq<Bytes> {
    if groups == [] then [] else groups[0] + Flatten(groups[1..])
  }

  /** The groups the sender's loop forms from the operations in `current` followed by `rest`. */
  ghost function PackFrom(current: seq<Bytes>, rest: seq<Bytes>): seq<seq<Bytes>>
    decreases |rest|
  {
    if rest == [] then if Join(current) == [] then [] else [current]
    else if |Join(current)| > 0 && |Join(current)| + |rest[0]| > CAPACITY then
      [current] + PackFrom([rest[0]], rest[1..])
    else PackFrom(current + [rest[0]], rest[1..])
  }

  /** Operations that can travel: not empty, and within one datagram. */
  ghost predicate Sendable(ops: seq<Bytes>) {
    forall op :: op in ops ==> 0 < |op| <= 1432
  }

  /** A packing: groups of whole operations in order, each within one datagram. */
  ghost predicate IsPacking(groups: seq<seq<Bytes>>, ops: seq<Bytes>) {
    Flatten(groups) == ops && forall g :: g in groups ==> |Join(g)| <= 1432
  }

  lemma JoinSingle(op: Bytes)
    ensures Join([op]) == op
  {
  }

  lemma JoinAppend(ops: seq<Bytes>, op: Bytes)
    ensures Join(ops + [op]) == Join(ops) + op
  {
  }

  lemma {:induction false} JoinConcat(a: seq<Bytes>, b: seq<Bytes>)
    ensures Join(a + b) == Join(a) + Join(b)
  {
    if b == [] {
      assert a + b == a;
    } else {
      assert (a + b)[..|a + b| - 1] == a + b[..|b| - 1];
      JoinConcat(a, b[..|b| - 1]);
    }
  }

  /** What the datagrams of the groups carry. */
  function Payloads(groups: seq<seq<Bytes>>): seq<Bytes> {
    if groups == [] then [] else [Join(groups[0])] + Payloads(groups[1..])
  }

  lemma {:induction false} JoinPayloads(groups: seq<seq<Bytes>>)
    ensures Join(Payloads(groups)) == Join(Flatten(groups)) && |Payloads(groups)| == |groups|
  {
    if groups != [] {
      JoinPayloads(groups[1..]);
      JoinConcat([Join(groups[0])], Payloads(groups[1..]));
      JoinConcat(groups[0], Flatten(groups[1..]));
      JoinSingle(Join(groups[0]));
    }
  }

  lemma {:induction false} PayloadsFit(groups: seq<seq<Bytes>>)
    requires forall g :: g in groups ==> |Join(g)| <= CAPACITY
    ensures forall p :: p in Payloads(groups) ==> |p| <= CAPACITY
  {
    if groups != [] {
      PayloadsFit(groups[1..]);
    }
  }

  lemma LastGroup(current: seq<Bytes>)
    requires Sendable(current)
    ensures Join(current) == [] <==> current == []
    ensures Flatten([current]) == current && Flatten([]) == []
  {
  }

  lemma ConsGroup(group: seq<Bytes>, groups: seq<seq<Bytes>>, ops: seq<Bytes>)
    requires IsPacking(groups, ops) && |Join(group)| <= CAPACITY
    ensures IsPacking([group] + groups, group + ops)
  {
  }

  lemma SendableStep(current: seq<Bytes>, rest: seq<Bytes>)
    requires Sendable(current) && Sendable(rest) && rest != []
    ensures Sendable(current + [rest[0]]) && Sendable([rest[0]]) && Sendable(rest[1..]) && |rest[0]| <= CAPACITY
  {
    assert rest[0] in rest;
  }

  lemma LastIsPacking(current: seq<Bytes>)
    requires Sendable(current) && |Join(current)| <= CAPACITY
    ensures IsPacking(PackFrom(current, []), current)
  {
    LastGroup(current);
  }

  lemma {:induction false} GroupsKeepOrder(current: seq<Bytes>, rest: seq<Bytes>)
    requires Sendable(current) && Sendable(rest) && |Join(current)| <= CAPACITY
    ensures IsPacking(PackFrom(current, rest), current + rest)
    decreases |rest|
  {
    hide Join, IsPacking, Sendable;
    if rest == [] {
      LastIsPacking(current);
      assert current + rest == current;
    } else {
      var op := rest[0];
      SendableStep(current, rest);
      JoinAppend(current, op);
      JoinSingle(op);
      if |Join(current)| > 0 && |Join(current)| + |op| > CAPACITY {
        GroupsKeepOrder([op], rest[1..]);
        ConsGroup(current, PackFrom([op], rest[1..]), [op] + rest[1..]);
        assert [op] + rest[1..] == rest;
      } else {
        GroupsKeepOrder(current + [op], rest[1..]);
        assert current + rest == (current + [op]) + rest[1..];
      }
    }
  }

  lemma {:induction false} GroupsNotEmpty(current: seq<Bytes>, rest: seq<Bytes>)
    ensures [] !in PackFrom(current, rest)
    decreases |rest|
  {
    hide Join;
    JoinEmpty();
    if rest != [] {
      GroupsNotEmpty([rest[0]], rest[1..]);
      GroupsNotEmpty(current + [rest[0]], rest[1..]);
    }
  }

  lemma JoinEmpty()
    ensures Join([]) == []
  {
  }

  /** The loop's groups are a packing: order kept, nothing split, lost or repeated, and no group is empty. */
  lemma PackFromIsPacking(current: seq<Bytes>, rest: seq<Bytes>)
    requires Sendable(current) && Sendable(rest) && |Join(current)| <= CAPACITY
    ensures IsPacking(PackFrom(current, rest), current + rest)
    ensures forall g :: g in PackFrom(current, rest) ==> g != []
  {
    hide Join, IsPacking, Sendable, PackFrom;
    GroupsKeepOrder(current, rest);
    GroupsNotEmpty(current, rest);
  }

  /** Leaving out the first k operations of a packing needs no more groups. */
  lemma {:induction false} DropFront(groups: seq<seq<Bytes>>, ops: seq<Bytes>, k: nat)
    returns (smaller: seq<seq<Bytes>>)
    requires IsPacking(groups, ops) && k <= |ops|
    ensures IsPacking(smaller, ops[k..]) && |smaller| <= |groups|
    decreases |groups|
  {
    if k == 0 {
      assert ops[0..] == ops;
      return groups;
    }
    var head, tail := groups[0], Flatten(groups[1..]);
    if |head| <= k {
      smaller := DropFront(groups[1..], tail, k - |head|);
      assert ops[k..] == tail[k - |head|..];
    } else {
      smaller := [head[k..]] + groups[1..];
      assert smaller[1..] == groups[1..];
      assert ops[k..] == head[k..] + tail;
      JoinConcat(head[..k], head[k..]);
      assert head[..k] + head[k..] == head;
      assert head in groups;
    }
  }

  lemma PrefixJoin(ops: seq<Bytes>, k: nat)
    requires k <= |ops|
    ensures |Join(ops[..k])| <= |Join(ops)|
  {
    JoinConcat(ops[..k], ops[k..]);
    assert ops[..k] + ops[k..] == ops;
  }

  /** When the next operation does not fit, another packing's first group covers no more than
      the greedy one, so it still needs to pack the rest. */
  lemma RestPacked(current: seq<Bytes>, rest: seq<Bytes>, other: seq<seq<Bytes>>) returns (smaller: seq<seq<Bytes>>)
    requires rest != [] && |Join(current)| + |rest[0]| > CAPACITY
    requires IsPacking(other, current + rest)
    ensures IsPacking(smaller, rest) && |smaller| < |other|
  {
    var all := current + rest;
    assert all[|current|] == rest[0];
    var head, tail := other[0], Flatten(other[1..]);
    assert head in other && all == head + tail;
    if |head| > |current| {
      PrefixJoin(head, |current| + 1);
      assert head[..|current| + 1] == all[..|current| + 1] == current + [rest[0]];
      JoinAppend(current, rest[0]);
      assert false;
    }
    smaller := DropFront(other[1..], tail, |current| - |head|);
    assert tail[|current| - |head|..] == all[|current|..] == rest;
  }

  /** Greedy packing needs the fewest datagrams of all order-preserving packings. */
  lemma {:induction false} PackFromMinimal(current: seq<Bytes>, rest: seq<Bytes>, other: seq<seq<Bytes>>)
    requires Sendable(current) && Sendable(rest) && |Join(current)| <= CAPACITY
    requires IsPacking(other, current + rest)
    ensures |PackFrom(current, rest)| <= |other|
    decreases |rest|
  {
    if rest == [] {
      assert other == [] ==> current == [];
    } else {
      assert rest[0] in rest;
      JoinAppend(current, rest[0]);
      JoinSingle(rest[0]);
      if |Join(current)| > 0 && |Join(current)| + |rest[0]| > CAPACITY {
        var smaller := RestPacked(current, rest, other);
        assert rest == [rest[0]] + rest[1..];
        PackFromMinimal([rest[0]], rest[1..], smaller);
      } else {
        assert current + rest == (current + [rest[0]]) + rest[1..];
        PackFromMinimal(current + [rest[0]], rest[1..], other);
      }
    }
  }
}
