// The optional shuffle of the listing. The random draws are a parameter:
// draw i is the position, at most i, that position i is swapped with, walking
// from the end of the list to its second element.
module Shuffle {

  predicate DrawsFit(n: nat, draws: seq<nat>)
  {
    |draws| == n && forall i :: 0 <= i < |draws| ==> draws[i] <= i
  }

  /** Shuffles the listing in place: the result holds the same names, each as often as before. */
  method ShuffleInPlace(images: array<string>, draws: seq<nat>)
    requires DrawsFit(images.Length, draws)
    modifies images
    ensures multiset(images[..]) == multiset(old(images[..]))
  {
    var i := images.Length;
    while i > 1
      invariant 0 <= i <= images.Length
      invariant multiset(images[..]) == multiset(old(images[..]))
      decreases i
    {
      i := i - 1;
      var j := draws[i];
      images[i], images[j] := images[j], images[i];
    }
  }
}
