/** Values and sequences shared by the models. */
module Wrappers {
  datatype Option<+T> = None | Some(value: T)

  datatype Result<+T, +E> = Success(value: T) | Failure(error: E)

  function Map<A, B>(items: seq<A>, f: A -> B): (r: seq<B>)
    ensures |r| == |items| && forall i :: 0 <= i < |r| ==> r[i] == f(items[i])
  {
    seq(|items|, i requires 0 <= i < |items| => f(items[i]))
  }

  // ----- a part of a sequence -----

  /** The slice of `source` at an offset is `part`. */
  ghost predicate At<T>(source: seq<T>, offset: nat, part: seq<T>) {
    offset + |part| <= |source| && source[offset..offset + |part|] == part
  }

  lemma AtSplit<T>(source: seq<T>, offset: nat, a: seq<T>, b: seq<T>)
    ensures At(source, offset, a + b) <==> At(source, offset, a) && At(source, offset + |a|, b)
  {
    var n := offset + |a| + |b|;
    if At(source, offset, a) && At(source, offset + |a|, b) {
      assert source[offset..n] == source[offset..offset + |a|] + source[offset + |a|..n];
    }
    if At(source, offset, a + b) {
      assert source[offset..offset + |a|] == source[offset..n][..|a|] == a;
      assert source[offset + |a|..n] == source[offset..n][|a|..] == b;
    }
  }

  lemma AtIndex<T>(source: seq<T>, offset: nat, part: seq<T>, i: nat)
    requires At(source, offset, part) && i < |part|
    ensures source[offset + i] == part[i]
  {
    assert source[offset..offset + |part|][i] == part[i];
  }
}
