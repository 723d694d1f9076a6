/**
 * The field's CSS classes: the keys of a PHP array, so no class occurs
 * twice and the classes are in insertion order: re-adding a class that is
 * present keeps its place, and a class that was removed and added again
 * goes last.
 */
module Classes {
  import opened Common

  /** `$classes[$c] = 1`: a known class stays where it is, a new one goes last. */
  function WithClass(cs: seq<string>, c: string): (r: seq<string>)
    ensures cs <= r && c in r
    ensures forall x :: x in r ==> x in cs || x == c
  {
    if c in cs then cs else cs + [c]
  }

  /** Adding a class twice is the same as adding it once. */
  lemma WithClassIdempotent(cs: seq<string>, c: string)
    ensures WithClass(WithClass(cs, c), c) == WithClass(cs, c)
  {
  }

  /** Adding a class keeps the classes distinct. */
  lemma WithClassNoDup(cs: seq<string>, c: string)
    requires NoDup(cs)
    ensures NoDup(WithClass(cs, c))
  {
  }

  /** `unset($classes[$c])`. */
  function WithoutClass(cs: seq<string>, c: string): (r: seq<string>)
    ensures |r| <= |cs|
    ensures forall x :: x in r <==> x in cs && x != c
  {
    if cs == [] then []
    else if cs[0] == c then WithoutClass(cs[1..], c)
    else [cs[0]] + WithoutClass(cs[1..], c)
  }

  /** Removing a class that is not there changes nothing. */
  lemma {:induction false} WithoutAbsentClass(cs: seq<string>, c: string)
    requires c !in cs
    ensures WithoutClass(cs, c) == cs
  {
    if cs != [] {
      assert cs == [cs[0]] + cs[1..];
      WithoutAbsentClass(cs[1..], c);
    }
  }

  /** Removing a class takes out that one class and leaves the others in their order. */
  lemma {:induction false} WithoutClassExact(p: seq<string>, c: string, q: seq<string>)
    requires c !in p && c !in q
    ensures WithoutClass(p + [c] + q, c) == p + q
  {
    if p == [] {
      assert p + [c] + q == [c] + q;
      WithoutAbsentClass(q, c);
    } else {
      assert p + [c] + q == [p[0]] + (p[1..] + [c] + q);
      assert p[0] != c;
      WithoutClassExact(p[1..], c, q);
      assert [p[0]] + (p[1..] + q) == p + q;
    }
  }

  /** Removing a class keeps the classes distinct. */
  lemma {:induction false} WithoutClassNoDup(cs: seq<string>, c: string)
    requires NoDup(cs)
    ensures NoDup(WithoutClass(cs, c))
  {
    if cs != [] {
      assert NoDup(cs[1..]) by {
        forall i, j | 0 <= i < j < |cs| - 1
          ensures cs[1..][i] != cs[1..][j]
        {
          assert cs[i + 1] != cs[j + 1];
        }
      }
      WithoutClassNoDup(cs[1..], c);
      assert cs[0] !in cs[1..] by {
        forall j | 0 <= j < |cs| - 1
          ensures cs[1..][j] != cs[0]
        {
          assert cs[j + 1] != cs[0];
        }
      }
    }
  }

  /** Adding a new class and removing it again restores the classes. */
  lemma AddThenRemoveClass(cs: seq<string>, c: string)
    requires c !in cs
    ensures WithoutClass(WithClass(cs, c), c) == cs
  {
    WithoutClassExact(cs, c, []);
    assert cs + [c] + [] == cs + [c];
    assert cs + [] == cs;
  }

  /** The classes, each after one space. */
  function JoinClasses(cs: seq<string>): string {
    if cs == [] then "" else " " + cs[0] + JoinClasses(cs[1..])
  }

  /** The attribute `class="..."` that `getClassesStr` builds. */
  function ClassAttribute(cs: seq<string>): string {
    "class=\"" + JoinClasses(cs) + "\""
  }

  lemma {:induction false} JoinClassesConcat(a: seq<string>, b: seq<string>)
    ensures JoinClasses(a + b) == JoinClasses(a) + JoinClasses(b)
  {
    if a == [] {
      assert a + b == b;
    } else {
      assert (a + b)[1..] == a[1..] + b;
      JoinClassesConcat(a[1..], b);
    }
  }

  /** Without classes the attribute is still emitted, empty. */
  lemma NoClassesAttribute()
    ensures ClassAttribute([]) == "class=\"\""
  {
  }

  /** Reads the joined classes back: each class is what follows a space up to the next space. */
  function SplitClasses(s: string): seq<string>
    decreases |s|
  {
    if s == [] || s[0] != ' ' then []
    else
      var rest := s[1..];
      var j := IndexOf(rest, ' ');
      [rest[..j]] + SplitClasses(rest[j..])
  }

  /** One space-free class after a space, in front of `t`, splits off as that class. */
  lemma SplitStep(c: string, t: string)
    requires ' ' !in c && (t == [] || t[0] == ' ')
    ensures SplitClasses([' '] + c + t) == [c] + SplitClasses(t)
  {
    var s := [' '] + c + t;
    assert s[1..] == c + t;
    IndexOfAfter(c, t, ' ');
    assert (c + t)[..|c|] == c && (c + t)[|c|..] == t;
  }

  /** Class names without spaces are recovered from the joined string. */
  lemma {:induction false} SplitJoinClasses(cs: seq<string>)
    requires forall c :: c in cs ==> ' ' !in c
    ensures SplitClasses(JoinClasses(cs)) == cs
  {
    if cs != [] {
      assert cs[0] in cs;
      assert JoinClasses(cs) == [' '] + cs[0] + JoinClasses(cs[1..]);
      SplitStep(cs[0], JoinClasses(cs[1..]));
      assert forall c :: c in cs[1..] ==> c in cs;
      SplitJoinClasses(cs[1..]);
      assert [cs[0]] + cs[1..] == cs;
    }
  }
}
