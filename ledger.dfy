/** The books as a whole: each category's cached total against the stock of
    the products in its partition, and the operations that move stock. */
module Ledger {
  import opened Records
  import opened ProductStore
  import CategoryStore

  /** A non-empty partition has a record to pick. */
  lemma HasKey(m: map<int, Product>)
    requires m != map[]
    ensures exists id :: id in m
  {
    if forall id :: id !in m {
      assert false;
    }
  }

  /** The stock held in one partition directory. */
  ghost function Sum(m: map<int, Product>): int
    decreases |m|
  {
    if m == map[] then 0
    else
      HasKey(m);
      var id :| id in m;
      m[id].stock + Sum(m - {id})
  }

  /** The stock held for category cid: nothing when it has no directory. */
  ghost function PartitionStock(parts: Partitions, cid: int): int
  {
    if cid in parts then Sum(parts[cid]) else 0
  }

  /** Every category's total equals the stock of its products. */
  ghost predicate Aligned(cats: map<int, Category>, parts: Partitions)
  {
    forall cid :: cid in cats ==> Total(cats[cid]) == PartitionStock(parts, cid)
  }

  predicate StocksNonNegative(parts: Partitions)
  {
    forall cid, id :: cid in parts && id in parts[cid] ==> parts[cid][id].stock >= 0
  }

  /** Every stored product belongs to an existing category (a partition
      directory left without readable files may outlive its category). */
  predicate Owned(cats: map<int, Category>, parts: Partitions)
  {
    forall cid, id :: cid in parts && id in parts[cid] ==> cid in cats
  }

  /** Everything the controllers keep true between requests, except that
      stock is never negative. */
  ghost predicate Books(cats: map<int, Category>, catNext: int, parts: Partitions, prodNext: int)
  {
    && CategoryStore.KeyedById(cats) && CategoryStore.IdsBelow(cats, catNext)
    && Consistent(parts) && UniqueIds(parts) && ProductStore.IdsBelow(parts, prodNext)
    && Owned(cats, parts) && Aligned(cats, parts)
  }

  /** The ledger invariant. */
  ghost predicate Balanced(cats: map<int, Category>, catNext: int, parts: Partitions, prodNext: int)
  {
    Books(cats, catNext, parts, prodNext) && StocksNonNegative(parts)
  }

  /** in, out and create: the owning category's total, a null total counting
      as 0, moves by delta; nothing happens when the category is missing. */
  function Credited(cats: map<int, Category>, cid: int, delta: int): (r: map<int, Category>)
    ensures r.Keys == cats.Keys
    ensures forall id :: id in cats && id != cid ==> r[id] == cats[id]
    ensures cid in cats ==>
      Total(r[cid]) == Total(cats[cid]) + delta && r[cid] == cats[cid].(totalCount := r[cid].totalCount)
  {
    if cid in cats then cats[cid := WithTotal(cats[cid], Total(cats[cid]) + delta)] else cats
  }

  /** A stock movement of the stored product p to stock s: p is rewritten in
      its partition and its category's total moves by the same amount. */
  ghost predicate Restocked(cats0: map<int, Category>, parts0: Partitions,
                            cats: map<int, Category>, parts: Partitions, p: Product, s: int)
  {
    && Stored(parts0, p)
    && parts == Written(parts0, p.(stock := s))
    && cats == Credited(cats0, p.categoryId, s - p.stock)
  }

  /** setStock: only a non-zero delta touches the category, and its new total
      is never below 0. */
  function Rebased(cats: map<int, Category>, cid: int, delta: int): (r: map<int, Category>)
    ensures r.Keys == cats.Keys
    ensures delta == 0 ==> r == cats
    ensures forall id :: id in cats && id != cid ==> r[id] == cats[id]
    ensures cid in cats && delta != 0 ==>
      Total(r[cid]) == (if Total(cats[cid]) + delta < 0 then 0 else Total(cats[cid]) + delta)
      && r[cid] == cats[cid].(totalCount := r[cid].totalCount)
  {
    if delta != 0 && cid in cats then
      var t := Total(cats[cid]) + delta;
      cats[cid := WithTotal(cats[cid], if t < 0 then 0 else t)]
    else
      cats
  }

  lemma {:induction false} SumRemove(m: map<int, Product>, id: int)
    requires id in m
    ensures Sum(m) == m[id].stock + Sum(m - {id})
    decreases |m|
  {
    var j :| j in m && Sum(m) == m[j].stock + Sum(m - {j});
    if j != id {
      SumRemove(m - {j}, id);
      SumRemove(m - {id}, j);
      assert m - {j} - {id} == m - {id} - {j};
    }
  }

  /** Writing p into a partition replaces the stock of the record it overwrites. */
  lemma SumWrite(m: map<int, Product>, p: Product)
    ensures Sum(m[p.id := p]) == Sum(m) - (if p.id in m then m[p.id].stock else 0) + p.stock
  {
    SumRemove(m[p.id := p], p.id);
    if p.id in m {
      SumRemove(m, p.id);
      assert m[p.id := p] - {p.id} == m - {p.id};
    } else {
      assert m[p.id := p] - {p.id} == m;
    }
  }

  lemma {:induction false} SumNonNegative(m: map<int, Product>)
    requires forall id :: id in m ==> m[id].stock >= 0
    ensures Sum(m) >= 0
    decreases |m|
  {
    if m != map[] {
      HasKey(m);
      var j :| j in m && Sum(m) == m[j].stock + Sum(m - {j});
      SumNonNegative(m - {j});
    }
  }

  /** With no negative stock, a partition holds at least the stock of any one product. */
  lemma SumAtLeast(m: map<int, Product>, id: int)
    requires id in m && forall k :: k in m ==> m[k].stock >= 0
    ensures Sum(m) >= m[id].stock
  {
    SumRemove(m, id);
    SumNonNegative(m - {id});
  }

  /** The partition stocks after write(p): only p's partition changes, by the
      difference between p's stock and that of the record it replaces. */
  lemma WrittenStock(parts: Partitions, p: Product, cid: int)
    ensures PartitionStock(Written(parts, p), cid) ==
      if cid != p.categoryId then PartitionStock(parts, cid)
      else PartitionStock(parts, cid)
           - (if cid in parts && p.id in parts[cid] then parts[cid][p.id].stock else 0) + p.stock
  {
    if cid == p.categoryId {
      var dir := if cid in parts then parts[cid] else map[];
      SumWrite(dir, p);
    }
  }

  /** The partition stocks after deleting product id from partition c0. */
  lemma RemovedStock(parts: Partitions, c0: int, id: int, cid: int)
    requires c0 in parts && id in parts[c0]
    ensures PartitionStock(Removed(parts, c0, id), cid) ==
      if cid != c0 then PartitionStock(parts, cid) else PartitionStock(parts, cid) - parts[c0][id].stock
  {
    if cid == c0 {
      SumRemove(parts[c0], id);
      if (parts[c0] - {id}).Keys == {} {
        assert parts[c0] - {id} == map[];
      }
    }
  }

  /** in, out, and setStock once the clamp is shown idle: the product's stock
      becomes s >= 0 and its category's total moves by the same amount. */
  lemma RestockKeepsBalance(cats: map<int, Category>, catNext: int, parts: Partitions, prodNext: int,
                            p: Product, s: int)
    requires Balanced(cats, catNext, parts, prodNext)
    requires Stored(parts, p) && s >= 0
    ensures Balanced(Credited(cats, p.categoryId, s - p.stock), catNext,
                     Written(parts, p.(stock := s)), prodNext)
  {
    var q := p.(stock := s);
    var cats', parts' := Credited(cats, p.categoryId, s - p.stock), Written(parts, q);
    forall cid | cid in cats'
      ensures Total(cats'[cid]) == PartitionStock(parts', cid)
    {
      WrittenStock(parts, q, cid);
    }
    forall c1, c2, id | c1 in parts' && c2 in parts' && id in parts'[c1] && id in parts'[c2]
      ensures c1 == c2
    {
      assert Stored(parts', parts'[c1][id]) && Stored(parts', parts'[c2][id]);
    }
  }

  /** In a balanced ledger setStock's clamp never fires: a non-zero delta is
      credited as it is. */
  lemma RebasedIsCredited(cats: map<int, Category>, catNext: int, parts: Partitions, prodNext: int,
                          p: Product, s: int)
    requires Balanced(cats, catNext, parts, prodNext)
    requires Stored(parts, p) && s >= 0
    ensures s != p.stock ==> Rebased(cats, p.categoryId, s - p.stock) == Credited(cats, p.categoryId, s - p.stock)
  {
    var cid := p.categoryId;
    if cid in cats && s != p.stock {
      SumAtLeast(parts[cid], p.id);
      assert Total(cats[cid]) + (s - p.stock) >= 0;
    }
  }

  /** In a balanced ledger deleting a product never needs the clamp either. */
  lemma DeleteKeepsBalance(cats: map<int, Category>, catNext: int, parts: Partitions, prodNext: int,
                           p: Product)
    requires Balanced(cats, catNext, parts, prodNext)
    requires Stored(parts, p)
    ensures Balanced(Debited(cats, p), catNext, Removed(parts, p.categoryId, p.id), prodNext)
    ensures p.categoryId in cats ==> Debited(cats, p) == Credited(cats, p.categoryId, -p.stock)
  {
    var cats', parts' := Debited(cats, p), Removed(parts, p.categoryId, p.id);
    SumAtLeast(parts[p.categoryId], p.id);
    forall cid | cid in cats'
      ensures Total(cats'[cid]) == PartitionStock(parts', cid)
    {
      RemovedStock(parts, p.categoryId, p.id, cid);
    }
    forall c1, c2, id | c1 in parts' && c2 in parts' && id in parts'[c1] && id in parts'[c2]
      ensures c1 == c2
    {
      assert Stored(parts, parts'[c1][id]) && Stored(parts, parts'[c2][id]);
    }
  }

  /** create: a new product under the next id in an existing category, whose
      total grows by its stock. A negative stock keeps the totals aligned but
      breaks the non-negative stock half of the invariant. */
  lemma CreateKeepsBooks(cats: map<int, Category>, catNext: int, parts: Partitions, prodNext: int,
                         p: Product)
    requires Books(cats, catNext, parts, prodNext)
    requires p.id == prodNext && p.categoryId in cats
    ensures Books(Credited(cats, p.categoryId, p.stock), catNext, Written(parts, p), prodNext + 1)
    ensures StocksNonNegative(parts) && p.stock >= 0 ==> StocksNonNegative(Written(parts, p))
  {
    var cats', parts' := Credited(cats, p.categoryId, p.stock), Written(parts, p);
    forall cid | cid in cats'
      ensures Total(cats'[cid]) == PartitionStock(parts', cid)
    {
      WrittenStock(parts, p, cid);
    }
    forall c1, c2, id | c1 in parts' && c2 in parts' && id in parts'[c1] && id in parts'[c2]
      ensures c1 == c2
    {
      assert Stored(parts', parts'[c1][id]) && Stored(parts', parts'[c2][id]);
    }
  }

  /** Category delete once its products are gone: the category and its
      partition leave together. */
  lemma CategoryDeleteKeepsBalance(cats: map<int, Category>, catNext: int, parts: Partitions,
                                   prodNext: int, cid: int)
    requires Balanced(cats, catNext, parts, prodNext)
    ensures Balanced(cats - {cid}, catNext, parts - {cid}, prodNext)
    ensures cid in parts && parts[cid] == map[] ==> Balanced(cats - {cid}, catNext, parts, prodNext)
  {
    var cats', parts' := cats - {cid}, parts - {cid};
    forall c | c in cats'
      ensures Total(cats'[c]) == PartitionStock(parts', c)
    {
      assert PartitionStock(parts', c) == PartitionStock(parts, c);
    }
  }

  /** Category create: a new category under the next id, with total 0 and no
      partition yet. */
  lemma CategoryCreateKeepsBalance(cats: map<int, Category>, catNext: int, parts: Partitions,
                                   prodNext: int, c: Category)
    requires Balanced(cats, catNext, parts, prodNext)
    requires c.id == catNext && Total(c) == 0
    ensures Balanced(cats[c.id := c], catNext + 1, parts, prodNext)
  {
    if c.id in parts {
      assert forall id :: id in parts[c.id] ==> c.id in cats;
      assert parts[c.id].Keys == {};
      assert parts[c.id] == map[];
    }
  }
}
