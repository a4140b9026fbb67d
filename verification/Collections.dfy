/** The elements of several lists together, counted with their multiplicity, and the sizes of sets. */
module Collections {

  lemma {:induction false} SubsetSize<T>(s: set<T>, t: set<T>)
    requires s <= t
    ensures |s| <= |t|
  {
    if s != {} {
      var x :| x in s;
      SubsetSize(s - {x}, t - {x});
    }
  }

  ghost function AllOf<T>(lists: seq<seq<T>>): multiset<T> {
    if lists == [] then multiset{} else AllOf(lists[..|lists| - 1]) + multiset(lists[|lists| - 1])
  }

  lemma {:induction false} AllOfAppend<T>(a: seq<seq<T>>, b: seq<seq<T>>)
    ensures AllOf(a + b) == AllOf(a) + AllOf(b)
  {
    if b == [] {
      assert a + b == a;
    } else {
      assert (a + b)[..|a + b| - 1] == a + b[..|b| - 1];
      AllOfAppend(a, b[..|b| - 1]);
    }
  }

  lemma {:induction false} InAll<T>(lists: seq<seq<T>>, i: nat, x: T)
    requires i < |lists|
    ensures multiset(lists[i])[x] <= AllOf(lists)[x]
  {
    if i < |lists| - 1 {
      InAll(lists[..|lists| - 1], i, x);
    }
  }

  lemma {:induction false} InAllTwice<T>(lists: seq<seq<T>>, i: nat, j: nat, x: T)
    requires i < j < |lists|
    ensures multiset(lists[i])[x] + multiset(lists[j])[x] <= AllOf(lists)[x]
  {
    if j < |lists| - 1 {
      InAllTwice(lists[..|lists| - 1], i, j, x);
    } else {
      InAll(lists[..j], i, x);
    }
  }

  /** The elements of the lists and those held have all been seen, each as often. */
  ghost predicate Conserved<T>(seen: seq<T>, lists: seq<seq<T>>, held: seq<T>) {
    AllOf(lists) + multiset(held) <= multiset(seen)
  }

  /** So an element seen once is in one list at most. */
  lemma SharedByNone<T>(seen: seq<T>, lists: seq<seq<T>>, held: seq<T>, i: nat, j: nat, x: T)
    requires Conserved(seen, lists, held) && i < j < |lists| && multiset(seen)[x] <= 1
    ensures !(x in lists[i] && x in lists[j])
  {
    InAllTwice(lists, i, j, x);
    assert AllOf(lists)[x] <= multiset(seen)[x];
    assert x in lists[i] ==> multiset(lists[i])[x] > 0;
    assert x in lists[j] ==> multiset(lists[j])[x] > 0;
  }
}
