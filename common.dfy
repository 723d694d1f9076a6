/** Small helpers on sequences and strings shared by the other modules. */
module Common {

  datatype Option<T> = None | Some(value: T)

  /** No element occurs twice: the shape of the keys of a PHP array. */
  predicate NoDup(s: seq<string>) {
    forall i, j :: 0 <= i < j < |s| ==> s[i] != s[j]
  }

  /** Position of the first `ch` in `s`, or `|s|` when `s` has none. */
  function IndexOf(s: string, ch: char): (r: nat)
    ensures r <= |s|
    ensures r < |s| ==> s[r] == ch
    ensures forall i :: 0 <= i < r ==> s[i] != ch
  {
    if s == [] then 0
    else if s[0] == ch then 0
    else 1 + IndexOf(s[1..], ch)
  }

  /** A prefix free of `ch` shifts the first `ch` by its length. */
  lemma {:induction false} IndexOfAfter(x: string, y: string, ch: char)
    requires ch !in x
    ensures IndexOf(x + y, ch) == |x| + IndexOf(y, ch)
  {
    if x != [] {
      assert (x + y)[0] == x[0];
      assert (x + y)[1..] == x[1..] + y;
      IndexOfAfter(x[1..], y, ch);
    } else {
      assert x + y == y;
    }
  }
}
