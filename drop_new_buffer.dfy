/**
 * The buffer of a `Source.actorRef(..., bufferSize, OverflowStrategy.dropNew())`
 * stage, as both ends of the gRPC gateway use it: elements wait in arrival
 * order until the stream takes them, and an element that arrives while
 * `bufferSize` elements are waiting is discarded.
 */
module DropNewBuffer {

  /** Offering `x` to a buffer holding `pending`. */
  function Offer<T>(pending: seq<T>, x: T, bufferSize: nat): (r: seq<T>)
    ensures |pending| < bufferSize ==> r == pending + [x]
    ensures |pending| >= bufferSize ==> r == pending
    ensures |pending| <= bufferSize ==> |r| <= bufferSize
    ensures r[..|pending|] == pending
  {
    if |pending| < bufferSize then pending + [x] else pending
  }

  /** What a run of offers keeps: the longest prefix that fits after what was already waiting. */
  function OfferAll<T>(pending: seq<T>, xs: seq<T>, bufferSize: nat): seq<T>
    decreases |xs|
  {
    if xs == [] then pending else OfferAll(Offer(pending, xs[0], bufferSize), xs[1..], bufferSize)
  }

  /**
   * Drop-new keeps the oldest elements: offering a run of elements to a
   * buffer keeps everything already waiting and then as many of the new
   * elements, from the first, as there is room for. Nothing waiting is ever
   * replaced by something newer.
   */
  lemma {:induction false} OfferAllKeepsOldest<T>(pending: seq<T>, xs: seq<T>, bufferSize: nat)
    requires |pending| <= bufferSize
    ensures var room := bufferSize - |pending|;
      OfferAll(pending, xs, bufferSize) == pending + xs[..Min(|xs|, room)]
    decreases |xs|
  {
    if xs != [] {
      var next := Offer(pending, xs[0], bufferSize);
      OfferAllKeepsOldest(next, xs[1..], bufferSize);
      if |pending| < bufferSize {
        assert next + xs[1..][..Min(|xs| - 1, bufferSize - |next|)]
            == pending + xs[..Min(|xs|, bufferSize - |pending|)];
      } else {
        assert xs[..0] == [] && xs[1..][..0] == [];
      }
    }
  }

  function Min(a: nat, b: nat): nat { if a < b then a else b }
}
