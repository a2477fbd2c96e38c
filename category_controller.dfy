/** /api/category: create, list, delete and delete-all, the last two
    cascading onto the product store. */
module CategoryApi {
  import opened Records
  import opened Urls
  import opened Assets
  import opened CategoryStore
  import ProductStore
  import Ledger

  class CategoryController {
    const repo: CategoryRepository
    const productRepo: ProductStore.ProductRepository
    /** app.base-url, "" when not configured. */
    const baseUrlFromConfig: string

    ghost predicate Valid()
      reads this, repo, productRepo
    {
      productRepo.categories == repo && productRepo.Valid()
    }

    /** The ledger invariant over the current state of both stores. */
    ghost predicate Balanced()
      reads this, repo, productRepo
    {
      Ledger.Balanced(repo.records, repo.nextId, productRepo.partitions, productRepo.nextId)
    }

    ghost predicate Books()
      reads this, repo, productRepo
    {
      Ledger.Books(repo.records, repo.nextId, productRepo.partitions, productRepo.nextId)
    }

    constructor (productRepo: ProductStore.ProductRepository, baseUrlFromConfig: string)
      requires productRepo.Valid()
      ensures Valid() && this.productRepo == productRepo && repo == productRepo.categories
      ensures this.baseUrlFromConfig == baseUrlFromConfig
    {
      this.productRepo := productRepo;
      repo := productRepo.categories;
      this.baseUrlFromConfig := baseUrlFromConfig;
    }

    function BaseUrlOf(req: Request): string
      reads this
    {
      BaseUrl(baseUrlFromConfig, req.scheme, req.serverName, req.serverPort)
    }

    /** "<prefixMillis>_<safe name>" of a category image upload. */
    static function UploadName(image: Upload, nameMillis: int, prefixMillis: int): string
    {
      StoredFileName(prefixMillis, SafeFileName(image.originalName, "category", nameMillis))
    }

    /** The file a category image upload is copied to. */
    function UploadTarget(image: Upload, nameMillis: int, prefixMillis: int): string
      reads this, repo
    {
      UploadPath(repo.fs.userDir, repo.fs.separator, "category", UploadName(image, nameMillis, prefixMillis))
    }

    /** The imagePath a new category gets: the served URL of its upload, or "". */
    function ImageRef(image: Option<Upload>, req: Request, nameMillis: int, prefixMillis: int): string
      reads this
    {
      if Uploaded(image) then ImageUrl(BaseUrlOf(req), "category", UploadName(image.value, nameMillis, prefixMillis))
      else ""
    }

    /** POST /create: an upload is copied first, and the copy fails when the
        target file exists already; then the category is saved under the next
        id with a total of 0. */
    method Create(name: string, image: Option<Upload>, req: Request, nameMillis: int, prefixMillis: int)
      returns (r: ApiResult<Category>)
      requires Valid()
      modifies repo`records, repo`nextId, repo.fs
      ensures Valid()
      ensures r.Error? <==> Uploaded(image) && UploadTarget(image.value, nameMillis, prefixMillis) in old(repo.fs.files)
      ensures r.Error? ==>
        && r.reason == CreateFailed
        && repo.records == old(repo.records) && repo.nextId == old(repo.nextId)
        && repo.fs.files == old(repo.fs.files)
      ensures r.Ok? ==>
        && r.data == Category(old(repo.nextId), name, ImageRef(image, req, nameMillis, prefixMillis), Some(0))
        && repo.records == old(repo.records)[r.data.id := r.data] && repo.nextId == old(repo.nextId) + 1
      ensures r.Ok? && Uploaded(image) ==>
        repo.fs.files == old(repo.fs.files) + {UploadTarget(image.value, nameMillis, prefixMillis)}
      ensures !Uploaded(image) ==> repo.fs.files == old(repo.fs.files)
      ensures old(Balanced()) ==> Balanced()
    {
      var fs := repo.fs;
      var imageUrl := "";
      if Uploaded(image) {
        var storedName := UploadName(image.value, nameMillis, prefixMillis);
        var target := UploadPath(fs.userDir, fs.separator, "category", storedName);
        if target in fs.files {
          return Error(CreateFailed);
        }
        fs.Store(target);
        imageUrl := ImageUrl(BaseUrlOf(req), "category", storedName);
      }
      ghost var parts0, cats0, next0 := productRepo.partitions, repo.records, repo.nextId;
      var c := repo.Save(name, imageUrl);
      r := Ok(c);
      if old(Balanced()) {
        Ledger.CategoryCreateKeepsBalance(cats0, next0, parts0, productRepo.nextId, c);
      }
    }

    /** GET /list: every readable category, a relative upload path prefixed
        with the base URL, in listing order. */
    method List(req: Request) returns (r: ApiResult<seq<Category>>, ghost listed: seq<Category>)
      requires Valid()
      ensures r.Ok?
      ensures forall c :: c in listed <==> c.id in repo.records && repo.records[c.id] == c
      ensures Distinct(listed)
      ensures |r.data| == |listed|
      ensures forall i :: 0 <= i < |listed| ==>
        r.data[i] == listed[i].(imagePath := WithBaseUrl(listed[i].imagePath, BaseUrlOf(req)))
    {
      var categories := repo.FindAll();
      listed := categories;
      var baseUrl := BaseUrlOf(req);
      for i := 0 to |categories|
        invariant |categories| == |listed|
        invariant forall k :: 0 <= k < i ==>
          categories[k] == listed[k].(imagePath := WithBaseUrl(listed[k].imagePath, baseUrl))
        invariant forall k :: i <= k < |listed| ==> categories[k] == listed[k]
      {
        var c := categories[i];
        categories := categories[i := c.(imagePath := WithBaseUrl(c.imagePath, baseUrl))];
      }
      r := Ok(categories);
    }

    /** POST /delete: the images of the products listed under id go first,
        then the category, and only when it existed are those products'
        files deleted one by one. */
    method Delete(id: int) returns (r: ApiResult<()>, ghost listed: seq<Product>)
      requires Valid()
      modifies repo`records, productRepo`partitions, repo.fs
      ensures Valid()
      ensures forall p :: p in listed <==> ProductStore.Stored(old(productRepo.partitions), p) && p.categoryId == id
      ensures r.Error? <==> id !in old(repo.records)
      ensures r.Error? ==>
        && r.reason == DeleteFailed
        && repo.records == old(repo.records) && productRepo.partitions == old(productRepo.partitions)
        && repo.fs.files == old(repo.fs.files) - ProductStore.ListedImageFiles(listed, repo.fs.userDir, repo.fs.separator)
      ensures r.Ok? && old(ProductStore.UniqueIds(productRepo.partitions)) ==>
        && repo.records == old(repo.records) - {id}
        && productRepo.partitions == Dropped(old(productRepo.partitions), id)
        && repo.fs.files == old(repo.fs.files)
             - ProductStore.ListedImageFiles(listed, repo.fs.userDir, repo.fs.separator)
             - ResolvedFiles(old(repo.records)[id].imagePath, repo.fs.userDir, repo.fs.separator)
      ensures old(Balanced()) ==> Balanced()
    {
      ghost var parts0, cats0, files0 := productRepo.partitions, repo.records, repo.fs.files;
      ghost var books := ProductStore.UniqueIds(productRepo.partitions);
      var fs := repo.fs;
      var products := productRepo.FindByCategory(id);
      listed := products;
      for i := 0 to |products|
        invariant fs.files == files0 - ProductStore.ListedImageFiles(products[..i], fs.userDir, fs.separator)
        modifies fs
      {
        assert products[..i + 1] == products[..i] + [products[i]];
        ProductStore.ListedSnoc(products[..i], products[i], fs.userDir, fs.separator);
        fs.DeleteImage(products[i].imagePath);
      }
      assert products[..|products|] == products;
      var deleted := repo.Delete(id);
      if !deleted {
        r := Error(DeleteFailed);
        return;
      }
      ghost var files1 := fs.files;
      var i := 0;
      while i < |products|
        invariant 0 <= i <= |products|
        invariant Valid()
        invariant books ==> Remains(parts0, id, products, i, productRepo.partitions)
        invariant books ==> repo.records == cats0 - {id} && fs.files == files1
      {
        var p := products[i];
        var ok: bool;
        ghost var target: Product;
        ghost var before := productRepo.partitions;
        ok, target := productRepo.Delete(p.id);
        if books {
          RemainsStep(parts0, id, products, i, before, target);
          assert target == p;
          assert ResolvedFiles(p.imagePath, fs.userDir, fs.separator)
              <= ProductStore.ListedImageFiles(products, fs.userDir, fs.separator);
        }
        i := i + 1;
      }
      r := Ok(());
      if books {
        RemainsDone(parts0, id, products, productRepo.partitions);
      }
      if old(Balanced()) {
        Ledger.CategoryDeleteKeepsBalance(cats0, repo.nextId, parts0, productRepo.nextId, id);
      }
    }

    /** POST /delete-all: the images of the products listed under every
        category, then every product, then every category. */
    method DeleteAll() returns (r: ApiResult<()>)
      requires Valid()
      modifies repo`records, repo`nextId, productRepo`partitions, productRepo`nextId, repo.fs
      ensures Valid() && r.Ok?
      ensures repo.records == map[] && repo.nextId == 1
      ensures productRepo.partitions == map[] && productRepo.nextId == 1000
      ensures repo.fs.files == old(repo.fs.files)
        - ProductStore.ImageFiles(old(productRepo.partitions), repo.fs.userDir, repo.fs.separator)
        - CategoryStore.ImageFiles(old(repo.records), repo.fs.userDir, repo.fs.separator)
      ensures Balanced()
    {
      ghost var parts0, files0 := productRepo.partitions, repo.fs.files;
      var fs := repo.fs;
      var categories := repo.FindAll();
      for d := 0 to |categories|
        invariant fs.files <= files0
        invariant files0 - fs.files <= ProductStore.ImageFiles(parts0, fs.userDir, fs.separator)
        modifies fs
      {
        var products := productRepo.FindByCategory(categories[d].id);
        for i := 0 to |products|
          invariant fs.files <= files0
          invariant files0 - fs.files <= ProductStore.ImageFiles(parts0, fs.userDir, fs.separator)
          modifies fs
        {
          ProductStore.StoredImageFiles(parts0, products[i], fs.userDir, fs.separator);
          fs.DeleteImage(products[i].imagePath);
        }
      }
      ghost var files1 := fs.files;
      productRepo.DeleteAll();
      assert fs.files == files0 - ProductStore.ImageFiles(parts0, fs.userDir, fs.separator);
      repo.DeleteAll();
      r := Ok(());
    }
  }

  /** What a successful category delete leaves of the partitions: the
      directory of id goes with its last product, and a directory that held
      no readable file stays. */
  ghost function Dropped(parts: ProductStore.Partitions, id: int): ProductStore.Partitions
  {
    if exists q :: ProductStore.Stored(parts, q) && q.categoryId == id then parts - {id} else parts
  }

  /** The product store after the first i listed products of partition id are
      deleted, listed being exactly that partition's products. */
  ghost predicate Remains(parts0: ProductStore.Partitions, id: int, listed: seq<Product>, i: int,
                          parts: ProductStore.Partitions)
  {
    && 0 <= i <= |listed|
    && ProductStore.Consistent(parts0) && ProductStore.UniqueIds(parts0)
    && (forall p :: p in listed <==> ProductStore.Stored(parts0, p) && p.categoryId == id)
    && Distinct(listed)
    && ProductStore.Consistent(parts) && ProductStore.UniqueIds(parts)
    && (forall q :: ProductStore.Stored(parts, q) <==> ProductStore.Stored(parts0, q) && q !in listed[..i])
    && parts - {id} == parts0 - {id}
    && (i == 0 ==> parts == parts0)
    && (i > 0 && id in parts ==> exists q :: ProductStore.Stored(parts, q) && q.categoryId == id)
  }

  /** One product delete of the cascade removes exactly the next listed product. */
  lemma RemainsStep(parts0: ProductStore.Partitions, id: int, listed: seq<Product>, i: int,
                    parts: ProductStore.Partitions, target: Product)
    requires Remains(parts0, id, listed, i, parts) && i < |listed|
    requires ProductStore.Stored(parts, target) && target.id == listed[i].id
    ensures target == listed[i]
    ensures Remains(parts0, id, listed, i + 1, ProductStore.Removed(parts, target.categoryId, target.id))
  {
    var p := listed[i];
    assert p !in listed[..i];
    assert ProductStore.Stored(parts, p);
    assert target == p;
    var parts' := ProductStore.Removed(parts, id, p.id);
    assert listed[..i + 1] == listed[..i] + [p];
    forall q
      ensures ProductStore.Stored(parts', q) <==> ProductStore.Stored(parts0, q) && q !in listed[..i + 1]
    {
      if q.categoryId == id && q.id == p.id {
        assert !ProductStore.Stored(parts', q);
        if ProductStore.Stored(parts0, q) {
          assert q == parts0[id][p.id] == p;
        }
      }
    }
    if id in parts' {
      assert parts'[id] != map[];
      Ledger.HasKey(parts'[id]);
      var k :| k in parts'[id];
      assert ProductStore.Stored(parts', parts'[id][k]);
    }
  }

  /** Once every listed product is deleted, the partitions are those before
      the cascade without the directory of id. */
  lemma RemainsDone(parts0: ProductStore.Partitions, id: int, listed: seq<Product>,
                    parts: ProductStore.Partitions)
    requires Remains(parts0, id, listed, |listed|, parts)
    ensures parts == Dropped(parts0, id)
  {
    assert listed[..|listed|] == listed;
    forall q | ProductStore.Stored(parts, q)
      ensures q.categoryId != id
    {
    }
    if listed != [] {
      assert ProductStore.Stored(parts0, listed[0]);
      assert id !in parts;
      ProductStore.SameStored(parts, parts0 - {id});
    }
  }
}
