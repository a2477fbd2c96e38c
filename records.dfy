/** The two record kinds of the ledger and the result wrapper the controllers return. */
module Records {

  datatype Option<+T> = None | Some(value: T)

  /** One file data/categories/<id>.json. A file written without a total reads back
      with `totalCount == None` (a Java null). A null image path is modelled as "",
      since every reader tests "null or empty" together. */
  datatype Category = Category(id: int, name: string, imagePath: string, totalCount: Option<int>)

  /** One file data/products/category_<categoryId>/<id>.json. */
  datatype Product = Product(id: int, categoryId: int, name: string, imagePath: string, stock: int)

  /** The total every reader works with: a null total counts as 0. */
  function Total(c: Category): int
  {
    match c.totalCount
    case Some(t) => t
    case None => 0
  }

  /** The category with its total replaced (setTotalCount). */
  function WithTotal(c: Category, t: int): (r: Category)
    ensures Total(r) == t && r.id == c.id
  {
    c.(totalCount := Some(t))
  }

  /** No element of the list appears twice. */
  predicate Distinct<T(==)>(s: seq<T>)
  {
    forall i, j :: 0 <= i < j < |s| ==> s[i] != s[j]
  }

  /** Joining two duplicate-free lists that share no element gives a duplicate-free list. */
  lemma DistinctAppend<T>(a: seq<T>, b: seq<T>)
    requires Distinct(a) && Distinct(b)
    requires forall x :: x in a ==> x !in b
    ensures Distinct(a + b)
  {
    forall i, j | 0 <= i < j < |a + b|
      ensures (a + b)[i] != (a + b)[j]
    {
      if i < |a| && j >= |a| {
        assert (a + b)[i] in a && (a + b)[j] in b;
      }
    }
  }

  /** File.listFiles on a directory modelled as a map: every entry once, in an
      order the platform chooses (any order here): the entries and their keys, in
      the same order. */
  method ListValues<K, V(==)>(m: map<K, V>) returns (r: seq<V>, keys: seq<K>)
    ensures |keys| == |r| == |m| && Distinct(keys)
    ensures forall i :: 0 <= i < |r| ==> keys[i] in m && r[i] == m[keys[i]]
    ensures forall k :: k in m ==> k in keys
    ensures forall v :: v in r <==> v in m.Values
  {
    r, keys := [], [];
    var rest := m.Keys;
    while rest != {}
      invariant |keys| == |r| == |m| - |rest| && Distinct(keys)
      invariant forall i :: 0 <= i < |r| ==> keys[i] in m && r[i] == m[keys[i]]
      invariant forall k :: k in m ==> (k in keys <==> k !in rest)
      invariant rest <= m.Keys
      decreases rest
    {
      var k :| k in rest;
      r, keys := r + [m[k]], keys + [k];
      rest := rest - {k};
    }
    forall v | v in m.Values
      ensures v in r
    {
      var k :| k in m && m[k] == v;
      var i :| 0 <= i < |keys| && keys[i] == k;
      assert r[i] == v;
    }
  }

  /** Why a controller call answered with an error message. */
  datatype Reason =
    | CountNotPositive     // in/out: count <= 0
    | ProductNotFound      // no readable product file with that id
    | InsufficientStock    // out: stock < count
    | NegativeStock        // set: newStock < 0
    | CategoryNotFound     // product create: no such category
    | DeleteFailed         // category delete: no such category
    | CreateFailed         // category create: the upload target already exists

  /** ApiResult: code 200 with data, or code 500 with a message. */
  datatype ApiResult<+T> = Ok(data: T) | Error(reason: Reason)
}
