/**
 * The field's HTML attributes: a PHP array from attribute name to value,
 * which keeps its keys in insertion order. It is modelled as a sequence of
 * (name, value) entries whose names are distinct.
 */
module Attributes {
  import opened Common
  import opened Html

  type Entry = (string, string)

  /** The attribute names, in order. */
  function Keys(a: seq<Entry>): (ks: seq<string>)
    ensures |ks| == |a|
    ensures forall i :: 0 <= i < |a| ==> ks[i] == a[i].0
  {
    if a == [] then [] else [a[0].0] + Keys(a[1..])
  }

  /** What a PHP array can hold: no name twice. */
  predicate DistinctKeys(a: seq<Entry>) {
    forall i, j :: 0 <= i < j < |a| ==> a[i].0 != a[j].0
  }

  /** `$attributes[$k]`, or None when `isset` fails. */
  function Lookup(a: seq<Entry>, k: string): (r: Option<string>)
    ensures r.None? <==> k !in Keys(a)
    ensures r.Some? ==> (k, r.value) in a
  {
    if a == [] then None
    else if a[0].0 == k then Some(a[0].1)
    else Lookup(a[1..], k)
  }

  /** The tail of a map with distinct names has distinct names, none of them the head's. */
  lemma DistinctTail(a: seq<Entry>)
    requires DistinctKeys(a) && a != []
    ensures DistinctKeys(a[1..]) && a[0].0 !in Keys(a[1..])
  {
    forall j | 0 <= j < |a| - 1
      ensures Keys(a[1..])[j] != a[0].0
    {
      assert a[1..][j] == a[j + 1];
    }
  }

  /** A head whose name is not in a tail with distinct names keeps the names distinct. */
  lemma DistinctCons(e: Entry, b: seq<Entry>)
    requires DistinctKeys(b) && e.0 !in Keys(b)
    ensures DistinctKeys([e] + b)
  {
    var c := [e] + b;
    forall i, j | 0 <= i < j < |c|
      ensures c[i].0 != c[j].0
    {
      assert c[j] == b[j - 1];
      if i == 0 {
        assert Keys(b)[j - 1] == b[j - 1].0;
      } else {
        assert c[i] == b[i - 1];
      }
    }
  }

  /** With distinct names every entry is what a lookup of its name finds. */
  lemma {:induction false} LookupEntry(a: seq<Entry>, i: nat)
    requires DistinctKeys(a) && i < |a|
    ensures Lookup(a, a[i].0) == Some(a[i].1)
  {
    if i > 0 {
      assert Keys(a)[0] != Keys(a)[i];
      DistinctTail(a);
      LookupEntry(a[1..], i - 1);
    }
  }

  /** `$attributes[$k] = $v`: overwrite in place, or append a new entry. */
  function Put(a: seq<Entry>, k: string, v: string): seq<Entry> {
    if a == [] then [(k, v)]
    else if a[0].0 == k then [(k, v)] + a[1..]
    else [a[0]] + Put(a[1..], k, v)
  }

  /** After a put, `k` finds `v` and every other name finds what it found before. */
  lemma {:induction false} PutLookup(a: seq<Entry>, k: string, v: string, k2: string)
    ensures Lookup(Put(a, k, v), k2) == if k2 == k then Some(v) else Lookup(a, k2)
  {
    if a != [] && a[0].0 != k {
      PutLookup(a[1..], k, v, k2);
    }
  }

  /** A name appended to a map that lacks it finds the appended value. */
  lemma LookupAppended(a: seq<Entry>, k: string, v: string)
    requires k !in Keys(a)
    ensures Lookup(a + [(k, v)], k) == Some(v)
  {
    PutNew(a, k, v);
    PutLookup(a, k, v, k);
  }

  /** An existing name keeps its position; only its value changes. */
  lemma {:induction false} PutExisting(a: seq<Entry>, k: string, v: string, i: nat)
    requires DistinctKeys(a) && i < |a| && a[i].0 == k
    ensures Put(a, k, v) == a[i := (k, v)]
  {
    if i > 0 {
      assert Keys(a)[0] != Keys(a)[i];
      DistinctTail(a);
      PutExisting(a[1..], k, v, i - 1);
      assert [a[0]] + a[1..][i - 1 := (k, v)] == a[i := (k, v)];
    }
  }

  /** A new name is appended at the end. */
  lemma {:induction false} PutNew(a: seq<Entry>, k: string, v: string)
    requires k !in Keys(a)
    ensures Put(a, k, v) == a + [(k, v)]
  {
    if a != [] {
      assert Keys(a) == [a[0].0] + Keys(a[1..]);
      PutNew(a[1..], k, v);
      assert [a[0]] + (a[1..] + [(k, v)]) == a + [(k, v)];
    }
  }

  /** A put keeps the names distinct. */
  lemma {:induction false} PutDistinct(a: seq<Entry>, k: string, v: string)
    requires DistinctKeys(a)
    ensures DistinctKeys(Put(a, k, v))
  {
    if a == [] {
    } else if a[0].0 == k {
      DistinctTail(a);
      DistinctCons((k, v), a[1..]);
    } else {
      DistinctTail(a);
      PutDistinct(a[1..], k, v);
      PutKeys(a[1..], k, v, a[0].0);
      DistinctCons(a[0], Put(a[1..], k, v));
    }
  }

  /** A put adds the name `k` and no other. */
  lemma {:induction false} PutKeys(a: seq<Entry>, k: string, v: string, x: string)
    ensures x in Keys(Put(a, k, v)) <==> x in Keys(a) || x == k
  {
    if a != [] {
      assert Keys(a) == [a[0].0] + Keys(a[1..]);
      if a[0].0 == k {
        assert Keys(Put(a, k, v)) == [k] + Keys(a[1..]);
      } else {
        PutKeys(a[1..], k, v, x);
        assert Keys(Put(a, k, v)) == [a[0].0] + Keys(Put(a[1..], k, v));
      }
    }
  }

  /** `unset($attributes[$k])`. */
  function Delete(a: seq<Entry>, k: string): (r: seq<Entry>)
    ensures |r| <= |a|
  {
    if a == [] then []
    else if a[0].0 == k then Delete(a[1..], k)
    else [a[0]] + Delete(a[1..], k)
  }

  /** After a delete `k` is missing and every other name finds what it found before. */
  lemma {:induction false} DeleteLookup(a: seq<Entry>, k: string, k2: string)
    ensures Lookup(Delete(a, k), k2) == if k2 == k then None else Lookup(a, k2)
  {
    if a != [] {
      DeleteLookup(a[1..], k, k2);
    }
  }

  /** A delete removes exactly the name `k`. */
  lemma {:induction false} DeleteKeys(a: seq<Entry>, k: string, x: string)
    ensures x in Keys(Delete(a, k)) <==> x in Keys(a) && x != k
  {
    if a != [] {
      DeleteKeys(a[1..], k, x);
      assert Keys(a) == [a[0].0] + Keys(a[1..]);
      if a[0].0 != k {
        assert Keys(Delete(a, k)) == [a[0].0] + Keys(Delete(a[1..], k));
      }
    }
  }

  /** Deleting an absent name changes nothing. */
  lemma {:induction false} DeleteAbsent(a: seq<Entry>, k: string)
    requires k !in Keys(a)
    ensures Delete(a, k) == a
  {
    if a != [] {
      assert Keys(a) == [a[0].0] + Keys(a[1..]);
      DeleteAbsent(a[1..], k);
      assert [a[0]] + a[1..] == a;
    }
  }

  lemma DeleteHead(a: seq<Entry>)
    requires DistinctKeys(a) && a != []
    ensures Delete(a, a[0].0) == a[1..]
  {
    DistinctTail(a);
    DeleteAbsent(a[1..], a[0].0);
  }

  /** With distinct names the one entry named `k` goes; the others keep their order. */
  lemma {:induction false} DeleteExact(a: seq<Entry>, k: string, i: nat)
    requires DistinctKeys(a) && i < |a| && a[i].0 == k
    ensures Delete(a, k) == a[..i] + a[i + 1..]
  {
    if i == 0 {
      DeleteHead(a);
    } else {
      DistinctTail(a);
      assert a[0].0 != k by {
        assert Keys(a)[0] != Keys(a)[i];
      }
      DeleteExact(a[1..], k, i - 1);
      DeleteSkipsHead(a, k, i);
    }
  }

  lemma DeleteSkipsHead(a: seq<Entry>, k: string, i: nat)
    requires 0 < i < |a| && a[0].0 != k
    requires Delete(a[1..], k) == a[1..][..i - 1] + a[1..][i..]
    ensures Delete(a, k) == a[..i] + a[i + 1..]
  {
    assert a[1..][..i - 1] == a[1..i] && a[1..][i..] == a[i + 1..];
    assert [a[0]] + a[1..i] == a[..i];
  }

  /** A delete keeps the names distinct. */
  lemma {:induction false} DeleteDistinct(a: seq<Entry>, k: string)
    requires DistinctKeys(a)
    ensures DistinctKeys(Delete(a, k))
  {
    if a != [] {
      DistinctTail(a);
      DeleteDistinct(a[1..], k);
      if a[0].0 != k {
        DeleteKeys(a[1..], k, a[0].0);
        DistinctCons(a[0], Delete(a[1..], k));
      }
    }
  }

  /** Adding a new name and deleting it again restores the map. */
  lemma PutThenDelete(a: seq<Entry>, k: string, v: string)
    requires k !in Keys(a)
    ensures Delete(Put(a, k, v), k) == a
  {
    PutNew(a, k, v);
    DeleteAbsent(a, k);
    DeleteAppended(a, (k, v));
  }

  lemma {:induction false} DeleteAppended(a: seq<Entry>, e: Entry)
    requires e.0 !in Keys(a)
    ensures Delete(a + [e], e.0) == Delete(a, e.0)
  {
    if a == [] {
      assert [] + [e] == [e];
    } else {
      assert Keys(a) == [a[0].0] + Keys(a[1..]);
      assert (a + [e])[1..] == a[1..] + [e];
      DeleteAppended(a[1..], e);
    }
  }

  /** One ` name="value"` fragment, both parts escaped. */
  function AttributeStr(e: Entry): string {
    " " + Escape(e.0) + "=\"" + Escape(e.1) + "\""
  }

  /** The attribute fragments of all entries, in order. */
  function AttributesStr(a: seq<Entry>): string {
    if a == [] then "" else AttributeStr(a[0]) + AttributesStr(a[1..])
  }

  /** Serialising a concatenation is concatenating the serialisations. */
  lemma {:induction false} AttributesStrConcat(a: seq<Entry>, b: seq<Entry>)
    ensures AttributesStr(a + b) == AttributesStr(a) + AttributesStr(b)
  {
    if a == [] {
      assert a + b == b;
    } else {
      assert (a + b)[1..] == a[1..] + b;
      AttributesStrConcat(a[1..], b);
    }
  }

  /** No name or value can open or close a tag in the serialised attributes. */
  lemma {:induction false} AttributesStrNoAngleBrackets(a: seq<Entry>)
    ensures '<' !in AttributesStr(a) && '>' !in AttributesStr(a)
  {
    if a != [] {
      AttributesStrNoAngleBrackets(a[1..]);
    }
  }

  /**
   * Splits one ` name="value"` fragment off the front of `s`: the name and
   * the value as they stand (still escaped), and what follows.
   */
  function SplitFragment(s: string): (r: Option<(string, string, string)>)
    ensures r.Some? ==> |r.value.2| < |s|
  {
    if s == [] || s[0] != ' ' then None
    else
      var rest := s[1..];
      var q := IndexOf(rest, '"');
      if q == |rest| || q == 0 || rest[q - 1] != '=' then None
      else
        var after := rest[q + 1..];
        var m := IndexOf(after, '"');
        if m == |after| then None
        else Some((rest[..q - 1], after[..m], after[m + 1..]))
  }

  /** Reads serialised attributes back: ` name="value"` fragments, entities decoded. */
  function ParseAttributes(s: string): Option<seq<Entry>>
    decreases |s|
  {
    if s == [] then Some([])
    else
      match SplitFragment(s)
      case None => None
      case Some((rk, rv, t)) =>
        match ParseAttributes(t)
        case None => None
        case Some(tail) => Some([(Decode(rk), Decode(rv))] + tail)
  }

  /** Cutting at the first `ch` of `x + [ch] + y` gives back `x` and `y`. */
  lemma CutAt(x: string, ch: char, y: string)
    requires ch !in x
    ensures IndexOf(x + [ch] + y, ch) == |x|
    ensures (x + [ch] + y)[..|x|] == x && (x + [ch] + y)[|x| + 1..] == y
  {
    IndexOfAfter(x, [ch] + y, ch);
    assert x + [ch] + y == x + ([ch] + y);
  }

  /** The fragment for an escaped name and value splits back into them. */
  lemma SplitFragmentOf(ek: string, ev: string, t: string)
    requires '"' !in ek && '"' !in ev
    ensures SplitFragment(" " + ek + "=\"" + ev + "\"" + t) == Some((ek, ev, t))
  {
    var s := " " + ek + "=\"" + ev + "\"" + t;
    var after := ev + ['"'] + t;
    var key := ek + ['='];
    var rest := key + ['"'] + after;
    assert s[1..] == rest;
    CutAt(key, '"', after);
    assert rest[|ek|] == '=' && rest[..|ek|] == ek;
    CutAt(ev, '"', t);
  }

  /** The serialised attributes determine the attributes: parsing gives them back. */
  lemma {:induction false} ParseAttributesStr(a: seq<Entry>)
    ensures ParseAttributes(AttributesStr(a)) == Some(a)
  {
    if a != [] {
      var k, v := a[0].0, a[0].1;
      var t := AttributesStr(a[1..]);
      assert AttributesStr(a) == " " + Escape(k) + "=\"" + Escape(v) + "\"" + t;
      SplitFragmentOf(Escape(k), Escape(v), t);
      ParseAttributesStr(a[1..]);
      DecodeEscape(k);
      DecodeEscape(v);
      assert [(k, v)] + a[1..] == a;
    }
  }
}
