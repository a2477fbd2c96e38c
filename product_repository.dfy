// The product store: one JSON file per product under
// data/products/category_<categoryId>/<id>.json, plus an id counter
// recovered from the file names of every partition directory.
module ProductStore {
  import opened Records
  import opened Decimal
  import opened Assets
  import opened ProductOrder
  import CategoryStore

  /** Partition directories by categoryId, each holding its readable files by id. */
  type Partitions = map<int, map<int, Product>>

  /** Every readable file holds the record its directory and name stand for. */
  predicate Consistent(parts: Partitions)
  {
    forall cid, id :: cid in parts && id in parts[cid] ==>
      parts[cid][id].categoryId == cid && parts[cid][id].id == id
  }

  /** p is the record in file category_<p.categoryId>/<p.id>.json. */
  predicate Stored(parts: Partitions, p: Product)
  {
    p.categoryId in parts && p.id in parts[p.categoryId] && parts[p.categoryId][p.id] == p
  }

  /** Some partition holds a file named after id. */
  predicate HasId(parts: Partitions, id: int)
  {
    exists cid :: cid in parts && id in parts[cid]
  }

  /** No id appears in two partitions. */
  predicate UniqueIds(parts: Partitions)
  {
    forall c1, c2, id :: c1 in parts && c2 in parts && id in parts[c1] && id in parts[c2] ==> c1 == c2
  }

  /** Every stored id lies below the next id the counter hands out. */
  predicate IdsBelow(parts: Partitions, nextId: int)
  {
    forall cid, id :: cid in parts && id in parts[cid] ==> id < nextId
  }

  /** The partition listings name the file of every record. */
  predicate ListsAll(listings: seq<seq<string>>, parts: Partitions)
  {
    forall cid, id :: cid in parts && id in parts[cid] ==> InLong(id) && FileName(id) in Flatten(listings)
  }

  /** write(p): mkdirs on the partition of p.categoryId, then overwrite <p.id>.json. */
  function Written(parts: Partitions, p: Product): (r: Partitions)
    ensures Stored(r, p)
    ensures forall q: Product :: q.categoryId != p.categoryId || q.id != p.id ==> (Stored(r, q) <==> Stored(parts, q))
    ensures Consistent(parts) ==> Consistent(r)
  {
    var dir := if p.categoryId in parts then parts[p.categoryId] else map[];
    parts[p.categoryId := dir[p.id := p]]
  }

  /** deleteProductJsonFile: the file goes, and so does its directory once empty. */
  function Removed(parts: Partitions, cid: int, id: int): (r: Partitions)
    requires cid in parts && id in parts[cid]
    ensures !(cid in r && id in r[cid])
    ensures forall q: Product :: q.categoryId != cid || q.id != id ==> (Stored(r, q) <==> Stored(parts, q))
    ensures cid in r <==> parts[cid].Keys != {id}
    ensures r - {cid} == parts - {cid}
    ensures Consistent(parts) ==> Consistent(r)
  {
    var rest := parts[cid] - {id};
    assert rest.Keys == parts[cid].Keys - {id};
    if rest.Keys == {} then
      assert parts[cid].Keys == {id};
      parts - {cid}
    else
      parts[cid := rest]
  }

  /** updateCategoryStockAfterDelete: the owning category, when readable, loses
      the product's stock from its total (a null total counting as 0), never
      going below 0; every other category is untouched. */
  function Debited(cats: map<int, Category>, p: Product): (r: map<int, Category>)
    ensures r.Keys == cats.Keys
    ensures forall id :: id in cats && id != p.categoryId ==> r[id] == cats[id]
    ensures p.categoryId in cats ==>
      var c := cats[p.categoryId];
      var t := Total(c) - p.stock;
      Total(r[p.categoryId]) == (if t < 0 then 0 else t)
      && r[p.categoryId] == c.(totalCount := r[p.categoryId].totalCount)
    ensures CategoryStore.KeyedById(cats) ==> CategoryStore.KeyedById(r)
  {
    if p.categoryId in cats then
      var c := cats[p.categoryId];
      var t := Total(c) - p.stock;
      cats[p.categoryId := WithTotal(c, if t < 0 then 0 else t)]
    else
      cats
  }

  /** The uploaded files the stored products' image references resolve to. */
  function ImageFiles(parts: Partitions, userDir: string, sep: char): set<string>
  {
    set cid, id, f | cid in parts && id in parts[cid]
                     && f in ResolvedFiles(parts[cid][id].imagePath, userDir, sep) :: f
  }

  /** The uploaded files a list of products' image references resolve to. */
  function ListedImageFiles(ps: seq<Product>, userDir: string, sep: char): set<string>
  {
    set p, f | p in ps && f in ResolvedFiles(p.imagePath, userDir, sep) :: f
  }

  lemma ListedSnoc(ps: seq<Product>, p: Product, userDir: string, sep: char)
    ensures ListedImageFiles(ps + [p], userDir, sep)
         == ListedImageFiles(ps, userDir, sep) + ResolvedFiles(p.imagePath, userDir, sep)
  {
    assert forall q :: q in ps + [p] <==> q in ps || q == p;
  }

  /** A listing of exactly the stored products covers all their images. */
  lemma ListedAll(ps: seq<Product>, parts: Partitions, userDir: string, sep: char)
    requires Consistent(parts)
    requires forall p :: p in ps <==> Stored(parts, p)
    ensures ListedImageFiles(ps, userDir, sep) == ImageFiles(parts, userDir, sep)
  {
    forall f | f in ImageFiles(parts, userDir, sep)
      ensures f in ListedImageFiles(ps, userDir, sep)
    {
      var cid, id :| cid in parts && id in parts[cid]
                     && f in ResolvedFiles(parts[cid][id].imagePath, userDir, sep);
      assert Stored(parts, parts[cid][id]);
    }
  }

  /** Two directory trees that hold the same records and the same directories
      are the same. */
  lemma SameStored(a: Partitions, b: Partitions)
    requires Consistent(a) && Consistent(b) && a.Keys == b.Keys
    requires forall q :: Stored(a, q) <==> Stored(b, q)
    ensures a == b
  {
    forall c | c in a
      ensures a[c] == b[c]
    {
      forall k | k in a[c]
        ensures k in b[c] && a[c][k] == b[c][k]
      {
        assert Stored(a, a[c][k]);
      }
      forall k | k in b[c]
        ensures k in a[c]
      {
        assert Stored(b, b[c][k]);
      }
    }
  }

  /** The image of a stored product is among the images of the store. */
  lemma StoredImageFiles(parts: Partitions, p: Product, userDir: string, sep: char)
    requires Stored(parts, p)
    ensures ResolvedFiles(p.imagePath, userDir, sep) <= ImageFiles(parts, userDir, sep)
  {
    forall f | f in ResolvedFiles(p.imagePath, userDir, sep)
      ensures f in ImageFiles(parts, userDir, sep)
    {
      assert parts[p.categoryId][p.id] == p;
    }
  }

  /** Different stored products have different (categoryId, id) keys. */
  lemma StoredKeysDistinct(parts: Partitions, s: seq<Product>)
    requires forall p :: p in s ==> Stored(parts, p)
    requires Distinct(s)
    ensures KeysDistinct(s)
  {
    forall i, j | 0 <= i < j < |s|
      ensures s[i].categoryId != s[j].categoryId || s[i].id != s[j].id
    {
      assert Stored(parts, s[i]) && Stored(parts, s[j]);
    }
  }

  class ProductRepository {
    /** The category store whose totals a delete adjusts. */
    const categories: CategoryStore.CategoryRepository
    /** Where uploaded images live. */
    const fs: FileSystem
    var partitions: Partitions
    /** The AtomicLong id generator. */
    var nextId: int

    ghost predicate Valid()
      reads this, categories
    {
      Consistent(partitions) && categories.Valid() && categories.fs == fs
    }

    /** Opens data/products: the counter becomes one above the largest id among
        the file names of all partition directories that parse, or 1 when none
        does (the initial 1000 is overwritten). */
    constructor (categories: CategoryStore.CategoryRepository, listings: seq<seq<string>>, stored: Partitions)
      requires categories.Valid() && Consistent(stored)
      ensures Valid() && this.categories == categories && fs == categories.fs
      ensures partitions == stored && nextId == MaxParsed(Flatten(listings)) + 1
      ensures ListsAll(listings, stored) ==> IdsBelow(partitions, nextId)
    {
      var next := RecoverNextIdAll(listings);
      this.categories := categories;
      fs := categories.fs;
      partitions := stored;
      nextId := next;
      new;
      if ListsAll(listings, stored) {
        forall cid, id | cid in stored && id in stored[cid]
          ensures id < next
        {
          RecoveredAboveListed(Flatten(listings), id);
        }
      }
    }

    /** Writes a new product under the next id. */
    method Save(categoryId: int, name: string, imagePath: string, stock: int) returns (p: Product)
      requires Valid()
      modifies this`partitions, this`nextId
      ensures Valid()
      ensures p == Product(old(nextId), categoryId, name, imagePath, stock)
      ensures partitions == Written(old(partitions), p) && nextId == old(nextId) + 1
      ensures IdsBelow(old(partitions), old(nextId)) ==>
        !HasId(old(partitions), p.id) && IdsBelow(partitions, nextId)
      ensures UniqueIds(old(partitions)) && IdsBelow(old(partitions), old(nextId)) ==> UniqueIds(partitions)
    {
      p := Product(nextId, categoryId, name, imagePath, stock);
      nextId := nextId + 1;
      partitions := Written(partitions, p);
    }

    /** write(p): stored under (p.categoryId, p.id); a copy in another partition stays. */
    method Update(p: Product)
      requires Valid()
      modifies this`partitions
      ensures Valid()
      ensures partitions == Written(old(partitions), p)
    {
      partitions := Written(partitions, p);
    }

    /** Looks for <id>.json in each partition directory in listing order and
        reads the first one found. */
    method FindById(id: int) returns (r: Option<Product>)
      requires Valid()
      ensures r.Some? <==> HasId(partitions, id)
      ensures r.Some? ==> Stored(partitions, r.value) && r.value.id == id
    {
      var dirs: seq<map<int, Product>>;
      ghost var cids: seq<int>;
      dirs, cids := ListValues(partitions);
      var i := 0;
      while i < |dirs|
        invariant 0 <= i <= |dirs|
        invariant forall k :: 0 <= k < i ==> id !in dirs[k]
      {
        if id in dirs[i] {
          ghost var cid := cids[i];
          assert cid in partitions && dirs[i] == partitions[cid];
          assert Stored(partitions, dirs[i][id]);
          return Some(dirs[i][id]);
        }
        i := i + 1;
      }
      r := None;
      forall cid | cid in partitions
        ensures id !in partitions[cid]
      {
        var k :| 0 <= k < |cids| && cids[k] == cid;
        assert dirs[k] == partitions[cid];
      }
    }

    /** Reads every file of category_<cid>; nothing when the directory is missing. */
    method FindByCategory(cid: int) returns (r: seq<Product>)
      requires Valid()
      ensures forall p :: p in r <==> Stored(partitions, p) && p.categoryId == cid
      ensures Distinct(r)
    {
      if cid !in partitions {
        return [];
      }
      ghost var ids: seq<int>;
      r, ids := ListValues(partitions[cid]);
      assert forall i :: 0 <= i < |r| ==> r[i].id == ids[i];
      forall p | Stored(partitions, p) && p.categoryId == cid
        ensures p in r
      {
        var k :| 0 <= k < |ids| && ids[k] == p.id;
      }
    }

    /** Reads every partition directory in listing order, then sorts by
        (categoryId, id). */
    method FindAll() returns (r: seq<Product>)
      requires Valid()
      ensures forall p :: p in r <==> Stored(partitions, p)
      ensures StrictlySorted(r)
    {
      var dirs: seq<map<int, Product>>;
      var cids: seq<int>;
      dirs, cids := ListValues(partitions);
      var all: seq<Product> := [];
      for d := 0 to |cids|
        invariant forall p :: p in all <==> Stored(partitions, p) && p.categoryId in cids[..d]
        invariant Distinct(all)
      {
        var ps := FindByCategory(cids[d]);
        assert forall c :: c in cids[..d + 1] <==> c in cids[..d] || c == cids[d];
        forall p | p in all
          ensures p !in ps
        {
          var k :| 0 <= k < d && cids[k] == p.categoryId;
        }
        DistinctAppend(all, ps);
        all := all + ps;
      }
      assert cids[..|cids|] == cids;
      StoredKeysDistinct(partitions, all);
      r := Sort(all);
      forall p
        ensures p in r <==> p in all
      {
        assert p in r <==> p in multiset(r);
      }
    }

    /** Reads the product, deletes its file (and its directory once empty), its
        image, and debits the owning category; false when no partition holds a
        readable <id>.json. */
    method Delete(id: int) returns (ok: bool, ghost target: Product)
      requires Valid()
      modifies this`partitions, fs, categories`records
      ensures Valid()
      ensures ok <==> HasId(old(partitions), id)
      ensures !ok ==> partitions == old(partitions) && fs.files == old(fs.files)
                      && categories.records == old(categories.records)
      ensures ok ==> Stored(old(partitions), target) && target.id == id
      ensures ok ==> partitions == Removed(old(partitions), target.categoryId, id)
      ensures ok ==> fs.files == old(fs.files) - ResolvedFiles(target.imagePath, fs.userDir, fs.separator)
      ensures ok ==> categories.records == Debited(old(categories.records), target)
    {
      var found := FindById(id);
      if found.None? {
        return false, Product(id, 0, "", "", 0);
      }
      var p := found.value;
      target := p;
      partitions := Removed(partitions, p.categoryId, p.id);
      fs.DeleteImage(p.imagePath);
      var c := categories.FindById(p.categoryId);
      if c.Some? {
        var total := Total(c.value) - p.stock;
        if total < 0 {
          total := 0;
        }
        categories.Update(WithTotal(c.value, total));
      }
      ok := true;
    }

    /** Deletes the image of every listed product, then every partition
        directory, and puts the counter back to 1000. Categories are untouched. */
    method DeleteAll()
      requires Valid()
      modifies this`partitions, this`nextId, fs
      ensures Valid()
      ensures partitions == map[] && nextId == 1000
      ensures fs.files == old(fs.files) - ImageFiles(old(partitions), fs.userDir, fs.separator)
    {
      var all := FindAll();
      ghost var files0 := fs.files;
      for i := 0 to |all|
        invariant fs.files == files0 - ListedImageFiles(all[..i], fs.userDir, fs.separator)
      {
        assert all[..i + 1] == all[..i] + [all[i]];
        ListedSnoc(all[..i], all[i], fs.userDir, fs.separator);
        fs.DeleteImage(all[i].imagePath);
      }
      assert all[..|all|] == all;
      ListedAll(all, old(partitions), fs.userDir, fs.separator);
      partitions := map[];
      nextId := 1000;
    }
  }
}
