/** The LINQ operators the client is built from (`Where`, `FirstOrDefault`,
    `SingleOrDefault`) and the "append each item's contribution, stop at the
    first exception" pattern of its `foreach` loops. */
module Sequences {
  import opened Wrappers
  import opened Failures

  // ---------------------------------------------------------------------
  // Where
  // ---------------------------------------------------------------------

  /** `from x in s where p(x) select x`. */
  function Filter<T>(s: seq<T>, p: T -> bool): (r: seq<T>)
    ensures |r| <= |s|
    ensures forall k :: 0 <= k < |r| ==> r[k] in s && p(r[k])
    ensures forall k :: 0 <= k < |s| && p(s[k]) ==> s[k] in r
    decreases |s|
  {
    if s == [] then []
    else if p(s[0]) then [s[0]] + Filter(s[1..], p)
    else Filter(s[1..], p)
  }

  /** Filtering a concatenation filters each part and keeps them in order, so
      the kept elements appear in their original order. */
  lemma {:induction false} FilterConcat<T>(a: seq<T>, b: seq<T>, p: T -> bool)
    ensures Filter(a + b, p) == Filter(a, p) + Filter(b, p)
    decreases |a|
  {
    if a != [] {
      assert (a + b)[0] == a[0];
      assert (a + b)[1..] == a[1..] + b;
      FilterConcat(a[1..], b, p);
      if p(a[0]) {
        assert [a[0]] + (Filter(a[1..], p) + Filter(b, p)) == ([a[0]] + Filter(a[1..], p)) + Filter(b, p);
      }
    } else {
      assert a + b == b;
    }
  }

  /** A predicate and its complement split a sequence: every element lands in
      exactly one of the two filters, as often as it occurs. */
  lemma {:induction false} FilterPartition<T>(s: seq<T>, p: T -> bool, q: T -> bool)
    requires forall x :: q(x) == !p(x)
    ensures multiset(Filter(s, p)) + multiset(Filter(s, q)) == multiset(s)
    decreases |s|
  {
    if s != [] {
      FilterPartition(s[1..], p, q);
      assert s == [s[0]] + s[1..];
    }
  }

  /** Two successive filters select what their conjunction selects. */
  lemma {:induction false} FilterFilter<T>(s: seq<T>, p: T -> bool, q: T -> bool, pq: T -> bool)
    requires forall x :: pq(x) == (p(x) && q(x))
    ensures Filter(Filter(s, p), q) == Filter(s, pq)
    decreases |s|
  {
    if s != [] {
      FilterFilter(s[1..], p, q, pq);
      if p(s[0]) {
        assert ([s[0]] + Filter(s[1..], p))[1..] == Filter(s[1..], p);
      }
    }
  }

  /** No element occurs twice. */
  predicate Distinct<T(==)>(s: seq<T>)
  {
    forall i, j :: 0 <= i < j < |s| ==> s[i] != s[j]
  }

  /** A filter of a sequence without repetitions has none either. */
  lemma {:induction false} FilterDistinct<T>(s: seq<T>, p: T -> bool)
    requires Distinct(s)
    ensures Distinct(Filter(s, p))
    decreases |s|
  {
    if s != [] {
      var t := s[1..];
      assert Distinct(t) by {
        forall i, j | 0 <= i < j < |t|
          ensures t[i] != t[j]
        {
          assert t[i] == s[i + 1] && t[j] == s[j + 1];
        }
      }
      FilterDistinct(t, p);
      if p(s[0]) {
        var r := Filter(s, p);
        assert s[0] !in t by {
          forall k | 0 <= k < |t|
            ensures t[k] != s[0]
          {
            assert t[k] == s[k + 1];
          }
        }
        forall i, j | 0 <= i < j < |r|
          ensures r[i] != r[j]
        {
          if i > 0 {
            assert r[i] == Filter(t, p)[i - 1] && r[j] == Filter(t, p)[j - 1];
          } else {
            assert r[j] == Filter(t, p)[j - 1];
          }
        }
      }
    }
  }

  /** The filter is empty exactly when no element satisfies the predicate. */
  lemma {:induction false} FilterEmpty<T>(s: seq<T>, p: T -> bool)
    ensures Filter(s, p) == [] <==> forall i :: 0 <= i < |s| ==> !p(s[i])
  {
    if Filter(s, p) != [] {
      var x := Filter(s, p)[0];
      assert x in s && p(x);
    } else {
      forall i | 0 <= i < |s|
        ensures !p(s[i])
      {
        assert s[i] in s;
      }
    }
  }

  /** Two or more elements survive the filter exactly when two positions
      satisfy the predicate. */
  lemma {:induction false} FilterMany<T>(s: seq<T>, p: T -> bool)
    ensures |Filter(s, p)| >= 2 <==> exists i, j :: 0 <= i < j < |s| && p(s[i]) && p(s[j])
    decreases |s|
  {
    if s != [] {
      FilterMany(s[1..], p);
      if p(s[0]) {
        FilterManyHead(s, p);
      } else {
        FilterManyTail(s, s[1..], p);
      }
    }
  }

  /** Step of `FilterMany` when the first element satisfies the predicate:
      one more survivor in the tail is enough. */
  lemma FilterManyHead<T>(s: seq<T>, p: T -> bool)
    requires s != [] && p(s[0])
    ensures |Filter(s, p)| >= 2 <==> exists i, j :: 0 <= i < j < |s| && p(s[i]) && p(s[j])
  {
    var t := s[1..];
    assert Filter(s, p) == [s[0]] + Filter(t, p);
    FilterEmpty(t, p);
    if Filter(t, p) != [] {
      var k :| 0 <= k < |t| && p(t[k]);
      assert p(s[0]) && p(s[k + 1]);
    } else {
      forall i, j | 0 <= i < j < |s|
        ensures !(p(s[i]) && p(s[j]))
      {
        assert s[j] == t[j - 1];
      }
    }
  }

  /** Step of `FilterMany` when the first element fails the predicate:
      both positions lie in the tail. */
  lemma FilterManyTail<T>(s: seq<T>, t: seq<T>, p: T -> bool)
    requires s != [] && !p(s[0]) && t == s[1..]
    requires |Filter(t, p)| >= 2 <==> exists i, j :: 0 <= i < j < |t| && p(t[i]) && p(t[j])
    ensures |Filter(s, p)| >= 2 <==> exists i, j :: 0 <= i < j < |s| && p(s[i]) && p(s[j])
  {
    assert Filter(s, p) == Filter(t, p);
    if exists i, j :: 0 <= i < j < |s| && p(s[i]) && p(s[j]) {
      var i, j :| 0 <= i < j < |s| && p(s[i]) && p(s[j]);
      assert s[i] == t[i - 1] && s[j] == t[j - 1];
    }
    if exists i, j :: 0 <= i < j < |t| && p(t[i]) && p(t[j]) {
      var i, j :| 0 <= i < j < |t| && p(t[i]) && p(t[j]);
      assert s[i + 1] == t[i] && s[j + 1] == t[j];
    }
  }

  /** Exactly one element survives the filter: the one at a position whose
      element alone satisfies the predicate. */
  lemma {:induction false} FilterOne<T>(s: seq<T>, p: T -> bool)
    requires |Filter(s, p)| == 1
    ensures exists i :: 0 <= i < |s| && s[i] == Filter(s, p)[0] && p(s[i])
              && forall j :: 0 <= j < |s| && j != i ==> !p(s[j])
    decreases |s|
  {
    var t := s[1..];
    if p(s[0]) {
      assert Filter(t, p) == [];
      FilterEmpty(t, p);
      forall j | 0 < j < |s|
        ensures !p(s[j])
      {
        assert s[j] == t[j - 1];
      }
    } else {
      FilterOne(t, p);
      var i :| 0 <= i < |t| && t[i] == Filter(t, p)[0] && p(t[i])
               && forall j :: 0 <= j < |t| && j != i ==> !p(t[j]);
      forall j | 0 <= j < |s| && j != i + 1
        ensures !p(s[j])
      {
        if j > 0 {
          assert s[j] == t[j - 1];
        }
      }
      assert s[i + 1] == t[i];
    }
  }

  // ---------------------------------------------------------------------
  // FirstOrDefault and SingleOrDefault
  // ---------------------------------------------------------------------

  /** `s.FirstOrDefault(p)`, `None` standing for the default `null`. */
  function FirstOrDefault<T>(s: seq<T>, p: T -> bool): (r: Option<T>)
    ensures r.None? <==> forall i :: 0 <= i < |s| ==> !p(s[i])
    ensures r.Some? ==> exists i :: 0 <= i < |s| && s[i] == r.value && p(s[i])
                          && forall j :: 0 <= j < i ==> !p(s[j])
    decreases |s|
  {
    if s == [] then None
    else if p(s[0]) then Some(s[0])
    else
      var r := FirstOrDefault(s[1..], p);
      assert r.Some? ==> exists i :: 0 <= i < |s[1..]| && s[1..][i] == r.value && p(s[1..][i])
                           && forall j :: 0 <= j < i ==> !p(s[1..][j]);
      assert forall i :: 0 <= i < |s[1..]| ==> s[1..][i] == s[i + 1];
      r
  }

  /** `FirstOrDefault` answers the first element that satisfies `p`. */
  lemma FirstOrDefaultFirst<T>(s: seq<T>, p: T -> bool)
    ensures forall i :: 0 <= i < |s| && p(s[i]) && (forall j :: 0 <= j < i ==> !p(s[j])) ==> FirstOrDefault(s, p) == Some(s[i])
  {
    forall i | 0 <= i < |s| && p(s[i]) && (forall j :: 0 <= j < i ==> !p(s[j]))
      ensures FirstOrDefault(s, p) == Some(s[i])
    {
      var r := FirstOrDefault(s, p);
      var i' :| 0 <= i' < |s| && s[i'] == r.value && p(s[i']) && forall j :: 0 <= j < i' ==> !p(s[j]);
      assert !(i' < i) && !(i < i');
    }
  }

  /** `s.SingleOrDefault()`: the default for no element, the element for one,
      and an `InvalidOperationException` for more. */
  function SingleOrDefault<T>(s: seq<T>): Result<Option<T>, Error>
  {
    if |s| == 0 then Ok(None)
    else if |s| == 1 then Ok(Some(s[0]))
    else Err(MoreThanOneElement)
  }

  /** `s.Where(p).SingleOrDefault()` stated on positions of `s`: no match
      gives the default, a unique match gives that element, two matches
      throw. */
  lemma SingleMatch<T>(s: seq<T>, p: T -> bool)
    ensures SingleOrDefault(Filter(s, p)) == Ok(None) <==> forall i :: 0 <= i < |s| ==> !p(s[i])
    ensures (SingleOrDefault(Filter(s, p)) == Err(MoreThanOneElement))
              == (exists i, j :: 0 <= i < j < |s| && p(s[i]) && p(s[j]))
    ensures SingleOrDefault(Filter(s, p)).Ok? || SingleOrDefault(Filter(s, p)).error == MoreThanOneElement
    ensures forall x :: SingleOrDefault(Filter(s, p)) == Ok(Some(x)) ==>
              exists i :: 0 <= i < |s| && s[i] == x && p(x) && forall j :: 0 <= j < |s| && j != i ==> !p(s[j])
  {
    FilterEmpty(s, p);
    FilterMany(s, p);
    if |Filter(s, p)| == 1 {
      FilterOne(s, p);
    }
  }

  // ---------------------------------------------------------------------
  // Appending each item's contribution, stopping at the first exception
  // ---------------------------------------------------------------------

  /** Prefixes an already built list to the result of the remaining items. */
  function Prepend<U>(done: seq<U>, rest: Result<seq<U>, Error>): Result<seq<U>, Error>
  {
    match rest
    case Ok(v) => Ok(done + v)
    case Err(e) => Err(e)
  }

  /** The result of one item followed by the result of the items after it:
      an exception of the item stops the loop. */
  function Then<U>(head: Result<seq<U>, Error>, rest: Result<seq<U>, Error>): Result<seq<U>, Error>
  {
    match head
    case Err(e) => Err(e)
    case Ok(v) => Prepend(v, rest)
  }

  /** A `foreach` over `s` whose body appends the conditions or paths `f`
      produces for the item, or throws: the list built, or the first
      exception. */
  function ConcatMap<T, U>(s: seq<T>, f: T -> Result<seq<U>, Error>): Result<seq<U>, Error>
    decreases |s|
  {
    if s == [] then Ok([]) else Then(f(s[0]), ConcatMap(s[1..], f))
  }

  /** Appending an already built list commutes with handling one more item:
      the step a loop takes when it appends the item's contribution. */
  lemma PrependThen<U>(done: seq<U>, head: Result<seq<U>, Error>, rest: Result<seq<U>, Error>)
    ensures Prepend(done, Then(head, rest)) == Then(Prepend(done, head), rest)
  {
    match head
    case Err(_) =>
    case Ok(v) =>
      match rest
      case Err(_) =>
      case Ok(w) => assert done + (v + w) == (done + v) + w;
  }

  /** Nothing built yet: the loop's result is the items' result. */
  lemma PrependNothing<U>(rest: Result<seq<U>, Error>)
    ensures Prepend([], rest) == rest
  {
    match rest
    case Err(_) =>
    case Ok(v) => assert [] + v == v;
  }

  /** The total number of elements the items contribute when none throws. */
  function Total<T, U>(s: seq<T>, f: T -> Result<seq<U>, Error>): nat
    decreases |s|
  {
    if s == [] then 0
    else (match f(s[0]) case Ok(v) => |v| case Err(_) => 0) + Total(s[1..], f)
  }

  /** One step of the loop: the item at `i` is handled and the result of the
      items after it is appended. */
  lemma ConcatMapStep<T, U>(s: seq<T>, f: T -> Result<seq<U>, Error>, i: nat)
    requires i < |s|
    ensures ConcatMap(s[i..], f) == Then(f(s[i]), ConcatMap(s[i + 1..], f))
  {
    assert s[i..][0] == s[i];
    assert s[i..][1..] == s[i + 1..];
  }

  /** The loop finishes without an exception exactly when no item throws;
      then the list holds as many elements as the items contribute. */
  lemma {:induction false} ConcatMapOk<T, U>(s: seq<T>, f: T -> Result<seq<U>, Error>)
    ensures ConcatMap(s, f).Ok? <==> forall i :: 0 <= i < |s| ==> f(s[i]).Ok?
    ensures ConcatMap(s, f).Ok? ==> |ConcatMap(s, f).value| == Total(s, f)
    decreases |s|
  {
    if s != [] {
      ConcatMapOk(s[1..], f);
      assert forall i :: 0 < i < |s| ==> s[i] == s[1..][i - 1];
    }
  }

  /** An exception is the one the first throwing item raises. */
  lemma {:induction false} ConcatMapFirstError<T, U>(s: seq<T>, f: T -> Result<seq<U>, Error>, k: nat)
    requires k < |s| && f(s[k]).Err?
    requires forall i :: 0 <= i < k ==> f(s[i]).Ok?
    ensures ConcatMap(s, f) == Err(f(s[k]).error)
    decreases k
  {
    if k > 0 {
      ConcatMapFirstError(s[1..], f, k - 1);
    }
  }

  /** The items' contributions appear in item order: handling `a + b` yields
      `a`'s list followed by `b`'s, and an exception in `a` stops before `b`. */
  lemma {:induction false} ConcatMapAppend<T, U>(a: seq<T>, b: seq<T>, f: T -> Result<seq<U>, Error>)
    ensures ConcatMap(a + b, f) == match ConcatMap(a, f)
                                   case Err(e) => Err(e)
                                   case Ok(v) => Prepend(v, ConcatMap(b, f))
    decreases |a|
  {
    if a == [] {
      assert a + b == b;
      match ConcatMap(b, f)
      case Ok(w) => assert [] + w == w;
      case Err(_) =>
    } else {
      assert (a + b)[0] == a[0];
      assert (a + b)[1..] == a[1..] + b;
      ConcatMapAppend(a[1..], b, f);
      match f(a[0])
      case Err(_) =>
      case Ok(v) =>
        match ConcatMap(a[1..], f)
        case Err(_) =>
        case Ok(w) =>
          match ConcatMap(b, f)
          case Err(_) =>
          case Ok(z) => assert v + (w + z) == (v + w) + z;
    }
  }
}
