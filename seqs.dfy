/** Sequence helpers shared by the stream filters of the backend and the array filters of the client. */
module Seqs {

  import opened Wrappers

  /** `a` is an order-preserving sub-sequence of `b`. */
  predicate IsSubseq<T(==,!new)>(a: seq<T>, b: seq<T>)
    decreases |b|
  {
    a == [] || (b != [] && ((a[0] == b[0] && IsSubseq(a[1..], b[1..])) || IsSubseq(a, b[1..])))
  }

  /** `stream().filter(p).collect(...)` and JavaScript's `Array.prototype.filter`. */
  function Filter<T(==,!new)>(s: seq<T>, p: T -> bool): (r: seq<T>)
    ensures |r| <= |s|
    ensures forall x {:trigger x in r} :: x in r <==> x in s && p(x)
    ensures IsSubseq(r, s)
  {
    if s == [] then []
    else if p(s[0]) then [s[0]] + Filter(s[1..], p)
    else Filter(s[1..], p)
  }

  /** `stream().map(f)` with a mapper that may throw: stops at the first failure. */
  function MapFalible<A, B, E>(s: seq<A>, f: A -> Result<B, E>): (r: Result<seq<B>, E>)
    ensures r.Err? <==> exists i :: 0 <= i < |s| && f(s[i]).Err?
    ensures r.Ok? ==> |r.value| == |s| && forall i :: 0 <= i < |s| ==> r.value[i] == f(s[i]).value
  {
    if s == [] then Ok([])
    else match f(s[0])
      case Err(e) => Err(e)
      case Ok(d) =>
        match MapFalible(s[1..], f)
        case Err(e) =>
          assert forall i :: 0 <= i < |s[1..]| ==> s[1..][i] == s[i + 1];
          Err(e)
        case Ok(resto) =>
          assert forall i :: 1 <= i < |s| ==> s[i] == s[1..][i - 1];
          Ok([d] + resto)
  }

  /** `map(f)`, built from the end as the loops that push one element per step build it. */
  function Map<A, B>(s: seq<A>, f: A -> B): seq<B>
  {
    if s == [] then [] else Map(s[..|s| - 1], f) + [f(s[|s| - 1])]
  }

  /** The mapped sequence has one element per element of `s`, each its image. */
  lemma {:induction false} MapPorPosicion<A, B>(s: seq<A>, f: A -> B)
    ensures |Map(s, f)| == |s|
    ensures forall k :: 0 <= k < |s| ==> Map(s, f)[k] == f(s[k])
  {
    if s != [] {
      MapPorPosicion(s[..|s| - 1], f);
    }
  }

  /** Mapping a prefix one element longer: the step of every loop that pushes one image per element. */
  lemma MapSnoc<A, B>(s: seq<A>, i: nat, f: A -> B)
    requires i < |s|
    ensures Map(s[..i + 1], f) == Map(s[..i], f) + [f(s[i])]
  {
    assert s[..i + 1][..i] == s[..i];
  }

  /** Functions that agree on the elements of `s` map it alike. */
  lemma {:induction false} MapExt<A, B>(s: seq<A>, f: A -> B, g: A -> B)
    requires forall x :: x in s ==> f(x) == g(x)
    ensures Map(s, f) == Map(s, g)
  {
    if s != [] {
      assert s[|s| - 1] in s;
      forall x | x in s[..|s| - 1] ensures f(x) == g(x) {
        assert x in s;
      }
      MapExt(s[..|s| - 1], f, g);
    }
  }

  /** `filter(p).length` */
  function Count<T(==,!new)>(s: seq<T>, p: T -> bool): nat
  {
    |Filter(s, p)|
  }

  lemma {:induction false} FilterConcat<T(!new)>(a: seq<T>, b: seq<T>, p: T -> bool)
    ensures Filter(a + b, p) == Filter(a, p) + Filter(b, p)
  {
    if a == [] {
      assert a + b == b;
    } else {
      assert (a + b)[0] == a[0];
      assert (a + b)[1..] == a[1..] + b;
      FilterConcat(a[1..], b, p);
    }
  }

  /** Filtering keeps each passing element exactly as often as it occurs, and no other element. */
  lemma {:induction false} FilterMultiset<T(!new)>(s: seq<T>, p: T -> bool)
    ensures forall x :: multiset(Filter(s, p))[x] == if p(x) then multiset(s)[x] else 0
  {
    if s != [] {
      FilterMultiset(s[1..], p);
      assert s == [s[0]] + s[1..];
    }
  }

  /** Filtering a prefix one element longer: the step of every loop that pushes the elements passing `p`. */
  lemma FilterSnoc<T(!new)>(s: seq<T>, i: nat, p: T -> bool)
    requires i < |s|
    ensures Filter(s[..i + 1], p) == Filter(s[..i], p) + (if p(s[i]) then [s[i]] else [])
  {
    assert s[..i + 1] == s[..i] + [s[i]];
    FilterConcat(s[..i], [s[i]], p);
    assert Filter([s[i]], p) == (if p(s[i]) then [s[i]] else []) by {
      assert [s[i]][1..] == [];
    }
  }

  /** Filtering out exactly one position removes that element and keeps the rest in order. */
  lemma {:induction false} FilterQuitaUno<T(!new)>(s: seq<T>, i: nat, p: T -> bool)
    requires i < |s| && !p(s[i])
    requires forall k :: 0 <= k < |s| && k != i ==> p(s[k])
    ensures Filter(s, p) == s[..i] + s[i + 1..]
  {
    var resto := s[1..];
    if i == 0 {
      forall x | x in resto ensures p(x) {
        var k :| 0 <= k < |resto| && resto[k] == x;
        assert x == s[k + 1];
      }
      FilterAll(resto, p);
    } else {
      forall k | 0 <= k < |resto| && k != i - 1 ensures p(resto[k]) {
        assert resto[k] == s[k + 1];
      }
      FilterQuitaUno(resto, i - 1, p);
      assert [s[0]] + (resto[..i - 1] + resto[i..]) == s[..i] + s[i + 1..];
    }
  }

  /** Two predicates that agree on the elements of `s` select the same elements. */
  lemma {:induction false} FilterExt<T(!new)>(s: seq<T>, p: T -> bool, q: T -> bool)
    requires forall x :: x in s ==> p(x) == q(x)
    ensures Filter(s, p) == Filter(s, q)
  {
    if s != [] {
      assert s[0] in s;
      forall x | x in s[1..] ensures p(x) == q(x) {
        assert x in s;
      }
      FilterExt(s[1..], p, q);
    }
  }

  /** A predicate every element satisfies keeps the whole sequence. */
  lemma {:induction false} FilterAll<T(!new)>(s: seq<T>, p: T -> bool)
    requires forall x :: x in s ==> p(x)
    ensures Filter(s, p) == s
  {
    if s != [] {
      assert s[0] in s;
      forall x | x in s[1..] ensures p(x) {
        assert x in s;
      }
      FilterAll(s[1..], p);
    }
  }

  /** A predicate no element satisfies keeps nothing. */
  lemma {:induction false} FilterNone<T(!new)>(s: seq<T>, p: T -> bool)
    requires forall x :: x in s ==> !p(x)
    ensures Filter(s, p) == []
  {
    if s != [] {
      assert s[0] in s;
      forall x | x in s[1..] ensures !p(x) {
        assert x in s;
      }
      FilterNone(s[1..], p);
    }
  }

  /** Elements counted by a weaker predicate are at least as many. */
  lemma {:induction false} CountMono<T(!new)>(s: seq<T>, p: T -> bool, q: T -> bool)
    requires forall x :: x in s && p(x) ==> q(x)
    ensures Count(s, p) <= Count(s, q)
  {
    if s != [] {
      forall x | x in s[1..] && p(x) ensures q(x) {
        assert x in s;
      }
      CountMono(s[1..], p, q);
    }
  }

  /** Two disjoint predicates together count no more elements than there are. */
  lemma {:induction false} CountDisjoint<T(!new)>(s: seq<T>, p: T -> bool, q: T -> bool)
    requires forall x :: x in s ==> !(p(x) && q(x))
    ensures Count(s, p) + Count(s, q) <= |s|
  {
    if s != [] {
      assert s[0] in s;
      forall x | x in s[1..] ensures !(p(x) && q(x)) {
        assert x in s;
      }
      CountDisjoint(s[1..], p, q);
    }
  }

  /** A predicate that holds exactly when one of two disjoint predicates holds counts the elements of both. */
  lemma {:induction false} CountUnion<T(!new)>(s: seq<T>, p: T -> bool, q: T -> bool, r: T -> bool)
    requires forall x :: x in s ==> !(p(x) && q(x)) && r(x) == (p(x) || q(x))
    ensures Count(s, r) == Count(s, p) + Count(s, q)
  {
    if s != [] {
      assert s[0] in s;
      forall x | x in s[1..] ensures !(p(x) && q(x)) && r(x) == (p(x) || q(x)) {
        assert x in s;
      }
      CountUnion(s[1..], p, q, r);
    }
  }
}
