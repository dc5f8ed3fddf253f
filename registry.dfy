/**
 * The list of connected viewers.  The open handler appends the new
 * connection's handle; the close handler erases every handle that is
 * owner-equivalent to the closed one (neither is `owner_before` the other),
 * keeping the rest in order.
 *
 * A websocket handle is a weak reference: `owner` identifies the connection
 * it refers to, `copy` tells apart different handle values that refer to the
 * same connection.  `owner_before` orders handles by connection only.
 */
module Registry {

  datatype Handle = Handle(owner: nat, copy: nat)

  /** `a.owner_before(b)`: a strict order on the connections the handles refer to. */
  predicate OwnerBefore(a: Handle, b: Handle) {
    a.owner < b.owner
  }

  /** The close handler's test: neither handle is `owner_before` the other. */
  predicate Equivalent(a: Handle, b: Handle) {
    !OwnerBefore(a, b) && !OwnerBefore(b, a)
  }

  /** `erase(remove_if(...))`: the handles of `s` that are not equivalent to `h`, in their order. */
  function Without(s: seq<Handle>, h: Handle): seq<Handle>
    decreases |s|
  {
    if s == [] then []
    else (if Equivalent(s[0], h) then [] else [s[0]]) + Without(s[1..], h)
  }

  class ClientRegistry {
    /** The connected viewers, in the order they connected. */
    var clients: seq<Handle>

    constructor ()
      ensures clients == []
    {
      clients := [];
    }

    /** The open handler: the new connection joins at the end. */
    method Open(h: Handle)
      modifies this
      ensures clients == old(clients) + [h]
    {
      clients := clients + [h];
    }

    /** The close handler: every handle to the closed connection leaves, the others stay in order. */
    method Close(h: Handle)
      modifies this
      ensures clients == Without(old(clients), h)
      ensures forall x :: x in clients <==> x in old(clients) && !Equivalent(x, h)
    {
      WithoutMembers(clients, h);
      clients := Without(clients, h);
    }
  }

  /** Owner equivalence is exactly "refers to the same connection". */
  lemma EquivalentIffSameOwner(a: Handle, b: Handle)
    ensures Equivalent(a, b) <==> a.owner == b.owner
  {
  }

  /** A handle survives a close exactly when it was there and refers to another connection. */
  lemma {:induction false} WithoutMembers(s: seq<Handle>, h: Handle)
    ensures forall x :: x in Without(s, h) <==> x in s && !Equivalent(x, h)
    decreases |s|
  {
    if s != [] {
      WithoutMembers(s[1..], h);
      assert forall x :: x in s <==> x == s[0] || x in s[1..];
    }
  }

  /**
   * Counted with multiplicity, a close removes every copy of every handle to
   * the closed connection and keeps every other handle as often as it occurred.
   */
  lemma {:induction false} WithoutCounts(s: seq<Handle>, h: Handle)
    ensures forall x :: multiset(Without(s, h))[x] == if Equivalent(x, h) then 0 else multiset(s)[x]
    decreases |s|
  {
    if s != [] {
      WithoutCounts(s[1..], h);
      assert s == [s[0]] + s[1..];
      assert multiset(s) == multiset([s[0]]) + multiset(s[1..]);
    }
  }

  /** Closing works piece by piece: the survivors of a concatenation are the survivors of each part, in order. */
  lemma {:induction false} WithoutAppend(a: seq<Handle>, b: seq<Handle>, h: Handle)
    ensures Without(a + b, h) == Without(a, h) + Without(b, h)
    decreases |a|
  {
    if a == [] {
      assert a + b == b;
    } else {
      assert (a + b)[0] == a[0];
      assert (a + b)[1..] == a[1..] + b;
      WithoutAppend(a[1..], b, h);
    }
  }

  /** Handles to other connections are all kept, in the same order. */
  lemma {:induction false} WithoutUnrelated(s: seq<Handle>, h: Handle)
    requires forall i :: 0 <= i < |s| ==> !Equivalent(s[i], h)
    ensures Without(s, h) == s
    decreases |s|
  {
    if s != [] {
      WithoutUnrelated(s[1..], h);
    }
  }

  /** Closing the same connection twice is closing it once. */
  lemma {:induction false} CloseIsIdempotent(s: seq<Handle>, h: Handle)
    ensures Without(Without(s, h), h) == Without(s, h)
  {
    var t := Without(s, h);
    WithoutMembers(s, h);
    assert forall i :: 0 <= i < |t| ==> t[i] in t;
    WithoutUnrelated(t, h);
  }

  /** A viewer that connects and disconnects again, with no other handle to its connection, leaves the list as it was. */
  lemma {:induction false} OpenThenClose(s: seq<Handle>, h: Handle)
    requires forall i :: 0 <= i < |s| ==> !Equivalent(s[i], h)
    ensures Without(s + [h], h) == s
  {
    WithoutAppend(s, [h], h);
    WithoutUnrelated(s, h);
    assert Without([h], h) == [];
  }
}
