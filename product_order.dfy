/** The order findAll lists products in: by categoryId, then by id
    (Long.compareTo on each field). */
module ProductOrder {
  import opened Records

  /** a sorts strictly before b. */
  predicate Before(a: Product, b: Product)
  {
    a.categoryId < b.categoryId || (a.categoryId == b.categoryId && a.id < b.id)
  }

  /** The comparator returns a value <= 0 for (a, b). */
  predicate NotAfter(a: Product, b: Product)
  {
    !Before(b, a)
  }

  predicate Sorted(s: seq<Product>)
  {
    forall i, j :: 0 <= i < j < |s| ==> NotAfter(s[i], s[j])
  }

  predicate StrictlySorted(s: seq<Product>)
  {
    forall i, j :: 0 <= i < j < |s| ==> Before(s[i], s[j])
  }

  /** No two products of the list share a (categoryId, id) key. */
  predicate KeysDistinct(s: seq<Product>)
  {
    forall i, j :: 0 <= i < j < |s| ==> s[i].categoryId != s[j].categoryId || s[i].id != s[j].id
  }

  /** p placed after every element that does not sort after it. */
  function Insert(s: seq<Product>, p: Product): (r: seq<Product>)
    ensures multiset(r) == multiset(s) + multiset{p}
  {
    if s == [] then [p]
    else if Before(p, s[0]) then [p] + s
    else
      assert s == [s[0]] + s[1..];
      [s[0]] + Insert(s[1..], p)
  }

  /** Every element of Insert(s, p) is p or comes from s. */
  lemma InsertFrom(s: seq<Product>, p: Product, q: Product)
    requires q in Insert(s, p)
    ensures q in s || q == p
  {
    assert q in multiset(Insert(s, p));
  }

  /** Inserting keeps a sorted list sorted. */
  lemma {:induction false} InsertSorted(s: seq<Product>, p: Product)
    requires Sorted(s)
    ensures Sorted(Insert(s, p))
  {
    if s != [] && !Before(p, s[0]) {
      var rest := Insert(s[1..], p);
      InsertSorted(s[1..], p);
      forall q | q in rest
        ensures NotAfter(s[0], q)
      {
        InsertFrom(s[1..], p, q);
      }
    }
  }

  /** Inserting a product whose key is new keeps a strictly sorted list strict. */
  lemma {:induction false} InsertStrict(s: seq<Product>, p: Product)
    requires StrictlySorted(s)
    requires forall q :: q in s ==> q.categoryId != p.categoryId || q.id != p.id
    ensures StrictlySorted(Insert(s, p))
  {
    if s != [] && !Before(p, s[0]) {
      var rest := Insert(s[1..], p);
      InsertStrict(s[1..], p);
      forall q | q in rest
        ensures Before(s[0], q)
      {
        InsertFrom(s[1..], p, q);
      }
    }
  }

  /** List.sort with the findAll comparator: a sorted permutation, strictly
      ordered when no key repeats. */
  method Sort(s: seq<Product>) returns (r: seq<Product>)
    ensures Sorted(r) && multiset(r) == multiset(s)
    ensures KeysDistinct(s) ==> StrictlySorted(r)
  {
    r := [];
    ghost var distinct := KeysDistinct(s);
    for i := 0 to |s|
      invariant Sorted(r) && multiset(r) == multiset(s[..i])
      invariant KeysDistinct(s) ==> StrictlySorted(r)
    {
      if distinct {
        forall q | q in r
          ensures q.categoryId != s[i].categoryId || q.id != s[i].id
        {
          assert q in multiset(s[..i]);
          var k :| 0 <= k < i && s[k] == q;
        }
        InsertStrict(r, s[i]);
      }
      assert s[..i + 1] == s[..i] + [s[i]];
      InsertSorted(r, s[i]);
      r := Insert(r, s[i]);
    }
    assert s[..|s|] == s;
  }
}
