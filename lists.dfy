/** The few Python list and string built-ins the task store relies on:
    list comprehensions with a condition (Filter), `next(x for x in s if p(x))`
    (FirstIndex), `list.remove` (RemoveFirst) and `needle in hay` on strings
    (Contains). */
module Lists {

  datatype Option<+T> = None | Some(value: T)

  /** `r` can be obtained from `s` by deleting elements, keeping the order. */
  predicate IsSubsequence<T(==)>(r: seq<T>, s: seq<T>)
    decreases |s|
  {
    if |r| == 0 then true
    else if |s| == 0 then false
    else if r[0] == s[0] then IsSubsequence(r[1..], s[1..])
    else IsSubsequence(r, s[1..])
  }

  /** `r` keeps exactly the elements of `s` that satisfy `p`, every
      occurrence of them, in their order in `s`. */
  ghost predicate Selection<T(!new)>(r: seq<T>, s: seq<T>, p: T -> bool) {
    && IsSubsequence(r, s)
    && forall x :: multiset(r)[x] == if p(x) then multiset(s)[x] else 0
  }

  function Not<T>(p: T -> bool): T -> bool {
    x => !p(x)
  }

  /** `[x for x in s if p(x)]` */
  function Filter<T(==,!new)>(p: T -> bool, s: seq<T>): (r: seq<T>)
    ensures forall x :: x in r <==> x in s && p(x)
    ensures |r| <= |s|
  {
    if |s| == 0 then []
    else
      var rest := Filter(p, s[1..]);
      if p(s[0]) then [s[0]] + rest else rest
  }

  /** The comprehension keeps exactly the elements satisfying `p`, every
      occurrence of them, in order. */
  lemma {:induction false} FilterIsSelection<T(!new)>(p: T -> bool, s: seq<T>)
    ensures Selection(Filter(p, s), s, p)
  {
    if |s| > 0 {
      assert s == [s[0]] + s[1..];
      var rest := Filter(p, s[1..]);
      FilterIsSelection(p, s[1..]);
      if p(s[0]) {
        assert ([s[0]] + rest)[1..] == rest;
      } else if rest != [] {
        assert rest[0] in rest;
      }
    }
  }

  /** The index `next(...)` stops at: the first element satisfying `p`,
      or None when there is none. */
  function FirstIndex<T>(p: T -> bool, s: seq<T>): (r: Option<nat>)
    ensures r.None? <==> forall i :: 0 <= i < |s| ==> !p(s[i])
    ensures r.Some? ==> r.value < |s| && p(s[r.value])
    ensures r.Some? ==> forall i :: 0 <= i < r.value ==> !p(s[i])
  {
    if |s| == 0 then None
    else if p(s[0]) then Some(0)
    else match FirstIndex(p, s[1..])
      case None => None
      case Some(i) => Some(i + 1)
  }

  /** `list.remove(v)`: drops the first element equal to `v`
      (Python raises ValueError when there is none; every caller here
      passes an element of the list). */
  function RemoveFirst<T(==)>(s: seq<T>, v: T): (r: seq<T>)
    requires v in s
    ensures |r| == |s| - 1
    ensures multiset(r) == multiset(s) - multiset{v}
  {
    assert s == [s[0]] + s[1..];
    if s[0] == v then s[1..] else [s[0]] + RemoveFirst(s[1..], v)
  }

  /** Python's `needle in hay` on strings: `needle` occurs as a contiguous
      block of `hay` (the empty string occurs in every string). */
  predicate Contains(hay: string, needle: string): (found: bool)
    ensures needle == [] ==> found
    ensures found ==> |needle| <= |hay|
    decreases |hay|
  {
    needle <= hay || (|hay| > 0 && Contains(hay[1..], needle))
  }

  // ---------------------------------------------------------------- lemmas

  lemma {:induction false} SubsequenceReflexive<T>(s: seq<T>)
    ensures IsSubsequence(s, s)
  {
    if |s| > 0 {
      SubsequenceReflexive(s[1..]);
    }
  }

  lemma {:induction false} SubsequenceMultiset<T>(r: seq<T>, s: seq<T>)
    requires IsSubsequence(r, s)
    ensures multiset(r) <= multiset(s)
  {
    if |r| > 0 {
      assert s == [s[0]] + s[1..];
      if r[0] == s[0] {
        assert r == [r[0]] + r[1..];
        SubsequenceMultiset(r[1..], s[1..]);
      } else {
        SubsequenceMultiset(r, s[1..]);
      }
    }
  }

  /** A Selection is unique: it is the comprehension's result. */
  lemma {:induction false} SelectionIsFilter<T(!new)>(r: seq<T>, s: seq<T>, p: T -> bool)
    requires Selection(r, s, p)
    ensures r == Filter(p, s)
  {
    if |s| > 0 {
      assert s == [s[0]] + s[1..];
      if |r| == 0 {
        assert !p(s[0]) by {
          assert multiset(s)[s[0]] > 0;
        }
        forall x ensures multiset(r)[x] == if p(x) then multiset(s[1..])[x] else 0 {
          if p(x) {
            assert multiset(s[1..])[x] <= multiset(s)[x];
          }
        }
        SubsequenceMultiset(r, s[1..]);
        SelectionIsFilter(r, s[1..], p);
      } else if r[0] == s[0] {
        assert r == [r[0]] + r[1..];
        assert p(s[0]) by {
          assert multiset(r)[r[0]] > 0;
        }
        SelectionIsFilter(r[1..], s[1..], p);
      } else {
        assert IsSubsequence(r, s[1..]);
        SubsequenceMultiset(r, s[1..]);
        assert multiset(s)[s[0]] == multiset(s[1..])[s[0]] + 1;
        assert multiset(r)[s[0]] <= multiset(s[1..])[s[0]];
        assert !p(s[0]);
        SelectionIsFilter(r, s[1..], p);
      }
    }
  }

  /** Everything is either kept by `p` or by its negation. */
  lemma {:induction false} FilterSplit<T(!new)>(p: T -> bool, s: seq<T>)
    ensures |Filter(p, s)| + |Filter(Not(p), s)| == |s|
  {
    if |s| > 0 {
      FilterSplit(p, s[1..]);
    }
  }

  lemma {:induction false} FilterKeepsAll<T(!new)>(p: T -> bool, s: seq<T>)
    requires forall i :: 0 <= i < |s| ==> p(s[i])
    ensures Filter(p, s) == s
  {
    if |s| > 0 {
      FilterKeepsAll(p, s[1..]);
    }
  }

  /** A weaker condition selects a superset, in the same order. */
  lemma {:induction false} FilterMonotone<T(!new)>(p: T -> bool, q: T -> bool, s: seq<T>)
    requires forall x :: p(x) ==> q(x)
    ensures IsSubsequence(Filter(p, s), Filter(q, s))
  {
    if |s| > 0 {
      FilterMonotone(p, q, s[1..]);
      var fp, fq := Filter(p, s[1..]), Filter(q, s[1..]);
      if p(s[0]) {
        assert ([s[0]] + fp)[1..] == fp;
        assert ([s[0]] + fq)[1..] == fq;
      } else if q(s[0]) {
        SubsequenceDropHead(fp, s[0], fq);
      }
    }
  }

  /** Putting an element in front keeps a subsequence one. */
  lemma {:induction false} SubsequenceDropHead<T>(r: seq<T>, x: T, s: seq<T>)
    requires IsSubsequence(r, s)
    ensures IsSubsequence(r, [x] + s)
    decreases |s|, 1
  {
    assert ([x] + s)[1..] == s;
    if |r| > 0 && r[0] == x {
      SubsequenceTail(r, s);
    }
  }

  lemma {:induction false} SubsequenceTail<T>(r: seq<T>, s: seq<T>)
    requires |r| > 0 && IsSubsequence(r, s)
    ensures IsSubsequence(r[1..], s)
    decreases |s|, 0
  {
    assert [s[0]] + s[1..] == s;
    if r[0] != s[0] {
      SubsequenceTail(r, s[1..]);
    }
    SubsequenceDropHead(r[1..], s[0], s[1..]);
  }

  /** `list.remove` of the first element `p` selects takes it off the front
      of the selection and leaves the rejected elements alone. */
  lemma {:induction false} RemoveFirstSelected<T(!new)>(p: T -> bool, s: seq<T>)
    requires Filter(p, s) != []
    ensures Filter(p, s)[0] in s
    ensures Filter(p, RemoveFirst(s, Filter(p, s)[0])) == Filter(p, s)[1..]
    ensures Filter(Not(p), RemoveFirst(s, Filter(p, s)[0])) == Filter(Not(p), s)
  {
    var v := Filter(p, s)[0];
    assert v in Filter(p, s);
    if s[0] != v {
      assert !p(s[0]);
      RemoveFirstSelected(p, s[1..]);
      var rest := RemoveFirst(s[1..], v);
      assert ([s[0]] + rest)[1..] == rest;
    }
  }

  /** Removing the first occurrence of `s[i]` is removing position `i`
      when no earlier element equals it. */
  lemma {:induction false} RemoveFirstAt<T>(s: seq<T>, i: nat)
    requires i < |s|
    requires forall j :: 0 <= j < i ==> s[j] != s[i]
    ensures RemoveFirst(s, s[i]) == s[..i] + s[i + 1..]
  {
    if i > 0 {
      var tail := s[1..];
      assert forall j :: 0 <= j < i - 1 ==> tail[j] != tail[i - 1] by {
        assert forall j :: 0 <= j < i - 1 ==> tail[j] == s[j + 1];
      }
      RemoveFirstAt(tail, i - 1);
      assert RemoveFirst(s, s[i]) == [s[0]] + RemoveFirst(tail, s[i]);
      SpliceAfterHead(s, i);
    }
  }

  lemma SpliceAfterHead<T>(s: seq<T>, i: nat)
    requires 0 < i < |s|
    ensures [s[0]] + (s[1..][..i - 1] + s[1..][i..]) == s[..i] + s[i + 1..]
  {
  }

  /** An exact match is in particular a substring match. */
  lemma ContainsItself(s: string)
    ensures Contains(s, s)
  {
  }

  /** `needle` starts at position `i` of `hay`. */
  predicate OccursAt(hay: string, needle: string, i: int) {
    0 <= i && i + |needle| <= |hay| && hay[i..i + |needle|] == needle
  }

  /** `Contains` finds `needle` exactly when it occurs at some position. */
  lemma {:induction false} ContainsIffOccurs(hay: string, needle: string)
    ensures Contains(hay, needle) <==> exists i :: OccursAt(hay, needle, i)
    decreases |hay|
  {
    if needle <= hay {
      assert OccursAt(hay, needle, 0);
    } else if |hay| > 0 {
      ContainsIffOccurs(hay[1..], needle);
      if Contains(hay[1..], needle) {
        var j :| OccursAt(hay[1..], needle, j);
        assert hay[j + 1..j + 1 + |needle|] == hay[1..][j..j + |needle|];
        assert OccursAt(hay, needle, j + 1);
      } else {
        forall i | OccursAt(hay, needle, i) ensures OccursAt(hay[1..], needle, i - 1) {
          assert hay[1..][i - 1..i - 1 + |needle|] == hay[i..i + |needle|];
        }
      }
    }
  }
}
