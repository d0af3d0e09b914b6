/**
  The frame-level operations the transforms apply to whole tables: a fallible column step
  applied row by row (any failing row makes the whole call raise), the row multiplication of
  a merge, and `drop_duplicates`.
 */
module Sequences {

  import opened Options

  /**
    A fallible step applied to every row in order: the rows' results when each succeeds, the
    first failure otherwise.
   */
  function Traverse<A, B>(xs: seq<A>, f: A -> Result<B>): (r: Result<seq<B>>)
    ensures r.Ok? <==> forall i :: 0 <= i < |xs| ==> f(xs[i]).Ok?
    ensures r.Ok? ==> |r.value| == |xs| && forall i :: 0 <= i < |xs| ==> f(xs[i]) == Ok(r.value[i])
    decreases |xs|
  {
    if |xs| == 0 then Ok([])
    else
      var head := f(xs[0]);
      var rest := Traverse(xs[1..], f);
      assert forall i :: 1 <= i < |xs| ==> xs[i] == xs[1..][i - 1];
      if head.Raised? then Raised(head.reason)
      else if rest.Raised? then Raised(rest.reason)
      else Ok([head.value] + rest.value)
  }

  /** The groups one after the other. */
  function Concat<T>(groups: seq<seq<T>>): seq<T>
    decreases |groups|
  {
    if |groups| == 0 then [] else groups[0] + Concat(groups[1..])
  }

  /** Every element of the concatenation comes from some group, and every group's elements are in it. */
  lemma {:induction false} ConcatMember<T>(groups: seq<seq<T>>, x: T)
    ensures x in Concat(groups) <==> exists g :: 0 <= g < |groups| && x in groups[g]
    decreases |groups|
  {
    if |groups| > 0 {
      ConcatMember(groups[1..], x);
      if exists g :: 0 <= g < |groups| && x in groups[g] {
        var g :| 0 <= g < |groups| && x in groups[g];
        if g > 0 {
          assert groups[1..][g - 1] == groups[g];
        }
      }
      if x in Concat(groups[1..]) {
        var g :| 0 <= g < |groups[1..]| && x in groups[1..][g];
        assert groups[g + 1] == groups[1..][g];
      }
    }
  }

  /** One element per group: the concatenation lines up with the groups. */
  lemma {:induction false} ConcatSingletons<T>(groups: seq<seq<T>>)
    requires forall g :: 0 <= g < |groups| ==> |groups[g]| == 1
    ensures |Concat(groups)| == |groups|
    ensures forall g :: 0 <= g < |groups| ==> Concat(groups)[g] == groups[g][0]
    decreases |groups|
  {
    if |groups| > 0 {
      ConcatSingletons(groups[1..]);
      forall g | 0 <= g < |groups|
        ensures Concat(groups)[g] == groups[g][0]
      {
        if g > 0 {
          assert groups[1..][g - 1] == groups[g];
        }
      }
    }
  }

  predicate NoDuplicates<T(==)>(s: seq<T>) {
    forall i, j :: 0 <= i < j < |s| ==> s[i] != s[j]
  }

  /**
    Reference definition of `drop_duplicates()` (keep the first): the elements of `s` that do
    not occur earlier in `s`, in their order.
   */
  function Firsts<T(==, !new)>(s: seq<T>): (r: seq<T>)
    ensures forall x :: x in r <==> x in s
    ensures NoDuplicates(r)
    decreases |s|
  {
    if |s| == 0 then []
    else
      var front := s[..|s| - 1];
      var last := s[|s| - 1];
      assert s == front + [last];
      if last in front then Firsts(front) else Firsts(front) + [last]
  }

  /** A table without repeated rows is left as it is. */
  lemma {:induction false} FirstsOfDistinct<T(!new)>(s: seq<T>)
    requires NoDuplicates(s)
    ensures Firsts(s) == s
    decreases |s|
  {
    if |s| > 0 {
      var front := s[..|s| - 1];
      assert NoDuplicates(front);
      FirstsOfDistinct(front);
      assert s[|s| - 1] !in front;
      assert s == front + [s[|s| - 1]];
    }
  }

  /** Dropping duplicates twice drops nothing more. */
  lemma FirstsIdempotent<T(!new)>(s: seq<T>)
    ensures Firsts(Firsts(s)) == Firsts(s)
  {
    FirstsOfDistinct(Firsts(s));
  }

  /** The rows kept are as many as the table's distinct rows. */
  lemma {:induction false} FirstsCount<T(!new)>(s: seq<T>)
    ensures |Firsts(s)| == |set x | x in s|
    decreases |s|
  {
    if |s| > 0 {
      var front := s[..|s| - 1];
      var last := s[|s| - 1];
      FirstsCount(front);
      assert s == front + [last];
      var before := set x | x in front;
      var after := set x | x in s;
      if last in front {
        assert after == before;
      } else {
        assert after == before + {last};
        assert last !in before;
      }
    }
  }

  /**
    `drop_duplicates()` as a single pass with a set of the rows already seen: the result is the
    reference definition, so each distinct row is kept once, at its first position.
   */
  method DropDuplicates<T(==, !new)>(s: seq<T>) returns (r: seq<T>)
    ensures r == Firsts(s)
    ensures forall x :: x in r <==> x in s
    ensures NoDuplicates(r)
  {
    r := [];
    var seen: set<T> := {};
    var i := 0;
    while i < |s|
      invariant i <= |s|
      invariant r == Firsts(s[..i])
      invariant forall x :: x in seen <==> x in s[..i]
    {
      assert s[..i + 1][..i] == s[..i];
      assert s[..i + 1][i] == s[i];
      if s[i] !in seen {
        r := r + [s[i]];
        seen := seen + {s[i]};
      }
      i := i + 1;
    }
    assert s[..i] == s;
  }
}
