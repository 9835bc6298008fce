/** Sequence helpers for tables kept in primary-key order: a `WHERE` filter, `findOne`
    (the first match) and an `UPDATE` of the matching rows. */
module Seqs {
  import opened Outcomes

  /** The elements of `s` that satisfy `p`, in their original order. */
  function Keep<T>(s: seq<T>, p: T -> bool): (r: seq<T>)
    ensures |r| <= |s|
    ensures forall i :: 0 <= i < |r| ==> r[i] in s && p(r[i])
    ensures forall i :: 0 <= i < |s| && p(s[i]) ==> s[i] in r
  {
    if |s| == 0 then []
    else if p(s[0]) then [s[0]] + Keep(s[1..], p)
    else Keep(s[1..], p)
  }

  /** `Keep` preserves every relation that holds between each element and the later ones:
      what was ordered stays ordered. */
  lemma {:induction false} KeepKeepsOrder<T>(s: seq<T>, p: T -> bool, rel: (T, T) -> bool)
    requires forall i, j :: 0 <= i < j < |s| ==> rel(s[i], s[j])
    ensures forall i, j :: 0 <= i < j < |Keep(s, p)| ==> rel(Keep(s, p)[i], Keep(s, p)[j])
  {
    if |s| > 0 {
      var tail := s[1..];
      assert forall i, j :: 0 <= i < j < |tail| ==> rel(tail[i], tail[j]) by {
        forall i, j | 0 <= i < j < |tail| ensures rel(tail[i], tail[j]) {
          assert tail[i] == s[i + 1] && tail[j] == s[j + 1];
        }
      }
      KeepKeepsOrder(tail, p, rel);
      var rest := Keep(tail, p);
      if p(s[0]) {
        assert forall j :: 0 <= j < |rest| ==> rel(s[0], rest[j]) by {
          forall j | 0 <= j < |rest| ensures rel(s[0], rest[j]) {
            var m :| 0 <= m < |tail| && tail[m] == rest[j];
            assert s[m + 1] == rest[j];
          }
        }
        PrependKeepsOrder(s[0], rest, rel);
      }
    }
  }

  /** Putting an element in front of an ordered sequence keeps it ordered when the element
      relates to every later one. */
  lemma PrependKeepsOrder<T>(x: T, s: seq<T>, rel: (T, T) -> bool)
    requires forall i, j :: 0 <= i < j < |s| ==> rel(s[i], s[j])
    requires forall j :: 0 <= j < |s| ==> rel(x, s[j])
    ensures forall i, j :: 0 <= i < j < |[x] + s| ==> rel(([x] + s)[i], ([x] + s)[j])
  {
    var r := [x] + s;
    forall i, j | 0 <= i < j < |r| ensures rel(r[i], r[j]) {
      assert r[j] == s[j - 1];
      if i > 0 {
        assert r[i] == s[i - 1];
      }
    }
  }

  /** The first element of `s` that satisfies `p`, if any. */
  function First<T>(s: seq<T>, p: T -> bool): (r: Option<T>)
    ensures r.None? <==> forall i :: 0 <= i < |s| ==> !p(s[i])
    ensures r.Some? ==> exists i :: 0 <= i < |s| && s[i] == r.value && p(s[i])
                                    && forall j :: 0 <= j < i ==> !p(s[j])
  {
    if |s| == 0 then None
    else if p(s[0]) then Some(s[0])
    else
      var r := First(s[1..], p);
      assert forall i :: 1 <= i < |s| ==> s[i] == s[1..][i - 1];
      r
  }

  /** An element appended after elements that all fail `p` is the first match when it
      satisfies `p`. */
  lemma FirstAppended<T>(s: seq<T>, x: T, p: T -> bool)
    requires forall i :: 0 <= i < |s| ==> !p(s[i])
    requires p(x)
    ensures First(s + [x], p) == Some(x)
  {
    var t := s + [x];
    assert t[|s|] == x;
    assert forall i :: 0 <= i < |s| ==> t[i] == s[i];
  }

  /** Every element that satisfies `p` is replaced by `f` of it; the others stay put. */
  function Replace<T>(s: seq<T>, p: T -> bool, f: T -> T): (r: seq<T>)
    ensures |r| == |s|
    ensures forall i :: 0 <= i < |s| ==> r[i] == (if p(s[i]) then f(s[i]) else s[i])
  {
    seq(|s|, i requires 0 <= i < |s| => if p(s[i]) then f(s[i]) else s[i])
  }

  /** Filtering distributes over concatenation. */
  lemma {:induction false} KeepAppend<T>(a: seq<T>, b: seq<T>, p: T -> bool)
    ensures Keep(a + b, p) == Keep(a, p) + Keep(b, p)
  {
    if |a| > 0 {
      assert (a + b)[1..] == a[1..] + b;
      KeepAppend(a[1..], b, p);
    } else {
      assert a + b == b;
    }
  }

  /** Filtering with a condition every element meets changes nothing. */
  lemma {:induction false} KeepAll<T>(s: seq<T>, p: T -> bool)
    requires forall i :: 0 <= i < |s| ==> p(s[i])
    ensures Keep(s, p) == s
  {
    if |s| > 0 {
      KeepAll(s[1..], p);
      assert [s[0]] + s[1..] == s;
    }
  }

  /** Filtering with a condition no element meets leaves nothing. */
  lemma {:induction false} KeepNone<T>(s: seq<T>, p: T -> bool)
    requires forall i :: 0 <= i < |s| ==> !p(s[i])
    ensures Keep(s, p) == []
  {
    if |s| > 0 {
      KeepNone(s[1..], p);
    }
  }

  /** Filtering by a weaker condition first does not change the result of a stronger one. */
  lemma {:induction false} KeepNarrow<T>(s: seq<T>, p: T -> bool, q: T -> bool)
    requires forall i :: 0 <= i < |s| && p(s[i]) ==> q(s[i])
    ensures Keep(Keep(s, q), p) == Keep(s, p)
  {
    if |s| > 0 {
      KeepNarrow(s[1..], p, q);
      if q(s[0]) {
        assert Keep(s, q) == [s[0]] + Keep(s[1..], q);
        assert ([s[0]] + Keep(s[1..], q))[1..] == Keep(s[1..], q);
      }
    }
  }

  /** An element either passes a filter or its complement, never both. */
  lemma {:induction false} KeepSplit<T>(s: seq<T>, p: T -> bool)
    ensures |Keep(s, p)| + |Keep(s, x => !p(x))| == |s|
  {
    if |s| > 0 {
      KeepSplit(s[1..], p);
    }
  }
}
