/** Facts about sequences of any element type, kept generic so that the solver
    does not look inside the elements. */
module Seqs {
  import opened Wrappers

  /** The first position of x in xs (`list.index`), None when it is absent. */
  function FirstIndexOf<T(==)>(xs: seq<T>, x: T): (r: Option<nat>)
    ensures r.None? <==> x !in xs
    ensures r.Some? ==> r.value < |xs| && xs[r.value] == x && x !in xs[..r.value]
  {
    if |xs| == 0 then None
    else
      var init := xs[..|xs| - 1];
      assert xs == init + [xs[|xs| - 1]];
      match FirstIndexOf(init, x)
      case Some(i) =>
        assert xs[..i] == init[..i];
        Some(i)
      case None => if xs[|xs| - 1] == x then Some(|xs| - 1) else None
  }

  /** The last position of x in xs, None when it is absent. */
  function LastIndexOf<T(==)>(xs: seq<T>, x: T): (r: Option<nat>)
    ensures r.None? <==> x !in xs
    ensures r.Some? ==> r.value < |xs| && xs[r.value] == x && x !in xs[r.value + 1..]
  {
    if |xs| == 0 then None
    else if xs[|xs| - 1] == x then Some(|xs| - 1)
    else
      var init := xs[..|xs| - 1];
      assert xs == init + [xs[|xs| - 1]];
      match LastIndexOf(init, x)
      case Some(i) =>
        assert xs[i + 1..] == init[i + 1..] + [xs[|xs| - 1]];
        Some(i)
      case None => None
  }

  /** Dropping the first element of a concatenation drops it from the left part. */
  lemma DropFirst<T>(a: seq<T>, b: seq<T>)
    requires |a| > 0
    ensures (a + b)[1..] == a[1..] + b
  {
  }

  /** An element followed by the slice just after it is the longer slice. */
  lemma ConsSlice<T>(s: seq<T>, i: nat, j: nat, tail: seq<T>)
    requires i < j <= |s| && tail == s[i + 1..j]
    ensures [s[i]] + tail == s[i..j]
  {
  }
}
