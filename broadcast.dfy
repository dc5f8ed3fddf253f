/**
 * The broadcast side of the server: at its own pace it reads the mailbox of
 * the capture side and sends the bytes to every connected viewer.  When the
 * mailbox is empty it sends the last non-empty frame it read instead, and
 * before any frame has been encoded that is the empty buffer.
 *
 * The mailbox reads are the input: `seen[i]` is what the `i`-th pass of the
 * loop found in the mailbox, and the `i`-th payload is what that pass sends.
 */
module Broadcast {
  import opened Common

  /** The most recent non-empty frame among `seen`, or the empty buffer when there is none. */
  function LatestFrame(seen: seq<Bytes>): Bytes
    decreases |seen|
  {
    if seen == [] then []
    else if seen[|seen| - 1] != [] then seen[|seen| - 1]
    else LatestFrame(seen[..|seen| - 1])
  }

  /**
   * The broadcast loop over a run of mailbox reads, keeping the fallback frame
   * in a local as the server does.  Each pass sends the mailbox contents when
   * they are non-empty and the remembered frame otherwise.
   */
  method BroadcastLoop(seen: seq<Bytes>) returns (payloads: seq<Bytes>)
    ensures |payloads| == |seen|
    ensures forall i :: 0 <= i < |seen| ==> payloads[i] == LatestFrame(seen[..i + 1])
  {
    var previous: Bytes := [];
    payloads := [];
    var i := 0;
    while i < |seen|
      invariant 0 <= i <= |seen|
      invariant previous == LatestFrame(seen[..i])
      invariant |payloads| == i
      invariant forall k :: 0 <= k < i ==> payloads[k] == LatestFrame(seen[..k + 1])
    {
      var frame := seen[i];
      if frame != [] {
        previous := frame;
      } else {
        frame := previous;
      }
      assert seen[..i + 1][..i] == seen[..i];
      payloads := payloads + [frame];
      i := i + 1;
    }
  }

  /** A pass whose read finds a frame sends exactly that frame. */
  lemma FreshFrameIsSent(seen: seq<Bytes>)
    requires seen != [] && seen[|seen| - 1] != []
    ensures LatestFrame(seen) == seen[|seen| - 1]
  {
  }

  /** The payload is empty exactly when every read so far found the mailbox empty. */
  lemma {:induction false} EmptyOnlyBeforeFirstFrame(seen: seq<Bytes>)
    ensures LatestFrame(seen) == [] <==> forall k :: 0 <= k < |seen| ==> seen[k] == []
    decreases |seen|
  {
    if seen != [] && seen[|seen| - 1] == [] {
      var prefix := seen[..|seen| - 1];
      EmptyOnlyBeforeFirstFrame(prefix);
      assert forall k :: 0 <= k < |prefix| ==> prefix[k] == seen[k];
    }
  }

  /**
   * A non-empty payload is a frame that was actually read, and every read
   * after that one found the mailbox empty: the fallback is the most recent
   * non-empty frame.
   */
  lemma {:induction false} FallbackIsMostRecentFrame(seen: seq<Bytes>)
    requires LatestFrame(seen) != []
    ensures exists k :: 0 <= k < |seen| && seen[k] == LatestFrame(seen) &&
                        forall j :: k < j < |seen| ==> seen[j] == []
    decreases |seen|
  {
    var last := |seen| - 1;
    if seen[last] != [] {
      assert seen[last] == LatestFrame(seen);
    } else {
      var prefix := seen[..last];
      FallbackIsMostRecentFrame(prefix);
      var k :| 0 <= k < |prefix| && prefix[k] == LatestFrame(prefix) &&
               forall j :: k < j < |prefix| ==> prefix[j] == [];
      assert seen[k] == LatestFrame(seen);
      assert forall j :: k < j < |seen| ==> seen[j] == [] by {
        forall j | k < j < |seen|
          ensures seen[j] == []
        {
          if j < last {
            assert prefix[j] == seen[j];
          }
        }
      }
    }
  }

  /** Once a frame has been read, an empty mailbox no longer empties the payload. */
  lemma {:induction false} FrameIsNeverForgotten(before: seq<Bytes>, after: seq<Bytes>)
    requires LatestFrame(before) != []
    ensures LatestFrame(before + after) != []
  {
    EmptyOnlyBeforeFirstFrame(before);
    var k :| 0 <= k < |before| && before[k] != [];
    assert (before + after)[k] == before[k];
    EmptyOnlyBeforeFirstFrame(before + after);
  }
}
