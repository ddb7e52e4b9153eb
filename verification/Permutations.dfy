// Permutations of sequences.
module Permutations {

  function Images<T, U>(f: T -> U, keys: seq<T>): (images: seq<U>)
    ensures |images| == |keys| && forall i :: 0 <= i < |keys| ==> images[i] == f(keys[i])
  {
    seq(|keys|, i requires 0 <= i < |keys| => f(keys[i]))
  }

  lemma ImagesWithout<T, U>(f: T -> U, keys: seq<T>, i: nat)
    requires i < |keys|
    ensures multiset(Images(f, keys)) == multiset(Images(f, keys[..i] + keys[i + 1..])) + multiset{f(keys[i])}
  {
    var images, fewer := Images(f, keys), Images(f, keys[..i] + keys[i + 1..]);
    assert fewer == images[..i] + images[i + 1..];
    assert images == images[..i] + [images[i]] + images[i + 1..];
  }

  // Permuting a sequence permutes the images of its elements.
  lemma {:induction false} ImagesPermute<T, U>(f: T -> U, a: seq<T>, b: seq<T>)
    requires multiset(a) == multiset(b)
    ensures multiset(Images(f, a)) == multiset(Images(f, b))
  {
    if a == [] {
      assert |b| == |multiset(b)| == 0;
    } else {
      var x := a[0];
      assert a == [x] + a[1..];
      assert x in multiset(b);
      var i :| 0 <= i < |b| && b[i] == x;
      var rest := b[..i] + b[i + 1..];
      assert b == b[..i] + [x] + b[i + 1..];
      assert multiset(a[1..]) == multiset(a) - multiset{x};
      assert multiset(rest) == multiset(b) - multiset{x};
      ImagesPermute(f, a[1..], rest);
      ImagesWithout(f, a, 0);
      ImagesWithout(f, b, i);
      assert a[..0] + a[1..] == a[1..];
    }
  }
}
