/** /api/product: create, in, out and set, each a step on the two stores. */
module ProductApi {
  import opened Records
  import opened Urls
  import opened Assets
  import opened ProductStore
  import opened ProductOrder
  import CategoryStore
  import Ledger

  class ProductController {
    const products: ProductRepository
    const categories: CategoryStore.CategoryRepository
    /** app.base-url, "" when not configured. */
    const baseUrlFromConfig: string

    ghost predicate Valid()
      reads this, products, categories
    {
      products.categories == categories && products.Valid()
    }

    /** The ledger invariant over the current state of both stores. */
    ghost predicate Balanced()
      reads this, products, categories
    {
      Ledger.Balanced(categories.records, categories.nextId, products.partitions, products.nextId)
    }

    ghost predicate Books()
      reads this, products, categories
    {
      Ledger.Books(categories.records, categories.nextId, products.partitions, products.nextId)
    }

    constructor (products: ProductRepository, baseUrlFromConfig: string)
      requires products.Valid()
      ensures Valid() && this.products == products && categories == products.categories
      ensures this.baseUrlFromConfig == baseUrlFromConfig
    {
      this.products := products;
      categories := products.categories;
      this.baseUrlFromConfig := baseUrlFromConfig;
    }

    /** The product as a response shows it: a relative upload path gets the base URL. */
    function Shown(p: Product, req: Request): Product
      reads this
    {
      p.(imagePath := WithBaseUrl(p.imagePath, BaseUrl(baseUrlFromConfig, req.scheme, req.serverName, req.serverPort)))
    }

    /** Stock in: count must be positive; the product gains count and its
        category, when readable, gains count on its total. */
    method In(productId: int, count: int, req: Request) returns (r: ApiResult<Product>, ghost before: Product)
      requires Valid()
      modifies products`partitions, categories`records
      ensures Valid()
      ensures count <= 0 ==> r == Error(CountNotPositive)
      ensures count > 0 && !HasId(old(products.partitions), productId) ==> r == Error(ProductNotFound)
      ensures count > 0 && HasId(old(products.partitions), productId) ==> r.Ok?
      ensures r.Error? ==> products.partitions == old(products.partitions)
                           && categories.records == old(categories.records)
      ensures r.Ok? ==>
        && count > 0 && before.id == productId
        && Ledger.Restocked(old(categories.records), old(products.partitions),
                            categories.records, products.partitions, before, before.stock + count)
        && r.data == Shown(before.(stock := before.stock + count), req)
      ensures old(Balanced()) ==> Balanced()
    {
      before := Product(productId, 0, "", "", 0);
      if count <= 0 {
        r := Error(CountNotPositive);
        return;
      }
      ghost var parts0, cats0 := products.partitions, categories.records;
      var found := products.FindById(productId);
      if found.None? {
        r := Error(ProductNotFound);
        return;
      }
      var p := found.value;
      before := p;
      var stocked := p.(stock := p.stock + count);
      products.Update(stocked);
      var c := categories.FindById(p.categoryId);
      if c.Some? {
        categories.Update(WithTotal(c.value, Total(c.value) + count));
      }
      r := Ok(Shown(stocked, req));
      assert Ledger.Restocked(cats0, parts0, categories.records, products.partitions, p, stocked.stock);
      if old(Balanced()) {
        Ledger.RestockKeepsBalance(cats0, categories.nextId, parts0, products.nextId, p, stocked.stock);
      }
      assert HasId(parts0, productId);
    }

    /** Stock out: count must be positive and at most the stock; the product
        loses count and its category total loses count, with no floor at 0. */
    method Out(productId: int, count: int, req: Request) returns (r: ApiResult<Product>, ghost before: Product)
      requires Valid()
      modifies products`partitions, categories`records
      ensures Valid()
      ensures count <= 0 ==> r == Error(CountNotPositive)
      ensures count > 0 && !HasId(old(products.partitions), productId) ==> r == Error(ProductNotFound)
      ensures count > 0 && HasId(old(products.partitions), productId) ==> r.Ok? || r == Error(InsufficientStock)
      ensures r == Error(InsufficientStock) ==>
        Stored(old(products.partitions), before) && before.id == productId && before.stock < count
      ensures r.Error? ==> products.partitions == old(products.partitions)
                           && categories.records == old(categories.records)
      ensures r.Ok? ==>
        && count > 0 && before.id == productId && count <= before.stock
        && Ledger.Restocked(old(categories.records), old(products.partitions),
                            categories.records, products.partitions, before, before.stock - count)
        && r.data == Shown(before.(stock := before.stock - count), req)
      ensures old(Balanced()) ==> Balanced()
    {
      before := Product(productId, 0, "", "", 0);
      if count <= 0 {
        r := Error(CountNotPositive);
        return;
      }
      ghost var parts0, cats0 := products.partitions, categories.records;
      var found := products.FindById(productId);
      if found.None? {
        r := Error(ProductNotFound);
        return;
      }
      var p := found.value;
      before := p;
      if p.stock < count {
        r := Error(InsufficientStock);
        return;
      }
      var stocked := p.(stock := p.stock - count);
      products.Update(stocked);
      var c := categories.FindById(p.categoryId);
      if c.Some? {
        categories.Update(WithTotal(c.value, Total(c.value) - count));
      }
      r := Ok(Shown(stocked, req));
      assert Ledger.Restocked(cats0, parts0, categories.records, products.partitions, p, stocked.stock);
      if old(Balanced()) {
        Ledger.RestockKeepsBalance(cats0, categories.nextId, parts0, products.nextId, p, stocked.stock);
      }
    }
  
    /** "<prefixMillis>_<safe name>" of a product image upload. */
    static function UploadName(image: Upload, nameMillis: int, prefixMillis: int): string
    {
      StoredFileName(prefixMillis, SafeFileName(image.originalName, "product", nameMillis))
    }

    /** The imagePath a new product gets: the served URL of its upload, or "". */
    function ImageRef(image: Option<Upload>, req: Request, nameMillis: int, prefixMillis: int): string
      reads this
    {
      if Uploaded(image) then
        ImageUrl(BaseUrl(baseUrlFromConfig, req.scheme, req.serverName, req.serverPort), "product",
                 UploadName(image.value, nameMillis, prefixMillis))
      else ""
    }

    /** The image part of create: a non-empty upload is written under its
        stored name and the URL it is served under is returned; without one
        nothing is written and the reference is "". */
    method SaveUpload(image: Option<Upload>, req: Request, nameMillis: int, prefixMillis: int)
      returns (imageUrl: string)
      modifies products.fs
      ensures imageUrl == ImageRef(image, req, nameMillis, prefixMillis)
      ensures Uploaded(image) ==>
        var fs := products.fs;
        fs.files == old(fs.files) + {UploadPath(fs.userDir, fs.separator, "product", UploadName(image.value, nameMillis, prefixMillis))}
      ensures !Uploaded(image) ==> products.fs.files == old(products.fs.files)
    {
      imageUrl := "";
      if Uploaded(image) {
        var fs := products.fs;
        var storedName := UploadName(image.value, nameMillis, prefixMillis);
        fs.Store(UploadPath(fs.userDir, fs.separator, "product", storedName));
        var baseUrl := BaseUrl(baseUrlFromConfig, req.scheme, req.serverName, req.serverPort);
        imageUrl := ImageUrl(baseUrl, "product", storedName);
      }
    }

    /** POST /create: the upload, if any, is written first; then the category
        must exist; then the product is saved under the next id and the
        category's total grows by its stock, negative stock included. */
    method Create(categoryId: int, name: string, stock: int, image: Option<Upload>, req: Request,
                  nameMillis: int, prefixMillis: int) returns (r: ApiResult<Product>)
      requires Valid()
      modifies products`partitions, products`nextId, categories`records, products.fs
      ensures Valid()
      ensures Uploaded(image) ==>
        var fs := products.fs;
        fs.files == old(fs.files) + {UploadPath(fs.userDir, fs.separator, "product", UploadName(image.value, nameMillis, prefixMillis))}
      ensures !Uploaded(image) ==> products.fs.files == old(products.fs.files)
      ensures categoryId !in old(categories.records) ==>
        && r == Error(CategoryNotFound)
        && products.partitions == old(products.partitions) && products.nextId == old(products.nextId)
        && categories.records == old(categories.records)
      ensures categoryId in old(categories.records) ==>
        && r == Ok(Product(old(products.nextId), categoryId, name, ImageRef(image, req, nameMillis, prefixMillis), stock))
        && products.partitions == Written(old(products.partitions), r.data)
        && products.nextId == old(products.nextId) + 1
        && categories.records == Ledger.Credited(old(categories.records), categoryId, stock)
      ensures old(Books()) ==> Books()
      ensures old(Balanced()) && stock >= 0 ==> Balanced()
    {
      var imageUrl := SaveUpload(image, req, nameMillis, prefixMillis);
      ghost var parts0, cats0, next0 := products.partitions, categories.records, products.nextId;
      var c := categories.FindById(categoryId);
      if c.None? {
        return Error(CategoryNotFound);
      }
      var p := products.Save(categoryId, name, imageUrl, stock);
      categories.Update(WithTotal(c.value, Total(c.value) + stock));
      r := Ok(p);
      if old(Books()) {
        Ledger.CreateKeepsBooks(cats0, categories.nextId, parts0, next0, p);
      }
    }

    /** updateImageUrl over a listing, in place: each product keeps its place
        and gains the base URL on a relative upload path. */
    method ShowAll(ps: seq<Product>, req: Request) returns (r: seq<Product>)
      ensures |r| == |ps|
      ensures forall i :: 0 <= i < |ps| ==> r[i] == Shown(ps[i], req)
    {
      r := ps;
      for i := 0 to |ps|
        invariant |r| == |ps|
        invariant forall k :: 0 <= k < i ==> r[k] == Shown(ps[k], req)
        invariant forall k :: i <= k < |ps| ==> r[k] == ps[k]
      {
        r := r[i := Shown(r[i], req)];
      }
    }

    /** GET /all: every readable product, sorted by (categoryId, id), as shown. */
    method All(req: Request) returns (r: ApiResult<seq<Product>>, ghost listed: seq<Product>)
      requires Valid()
      ensures r.Ok?
      ensures forall p :: p in listed <==> Stored(products.partitions, p)
      ensures StrictlySorted(listed)
      ensures |r.data| == |listed| && forall i :: 0 <= i < |listed| ==> r.data[i] == Shown(listed[i], req)
    {
      var all := products.FindAll();
      listed := all;
      var shown := ShowAll(all, req);
      r := Ok(shown);
    }

    /** GET /list/{cid}: the products of an existing category, as shown. */
    method List(cid: int, req: Request) returns (r: ApiResult<seq<Product>>, ghost listed: seq<Product>)
      requires Valid()
      ensures cid !in categories.records <==> r == Error(CategoryNotFound)
      ensures r.Ok? || r == Error(CategoryNotFound)
      ensures r.Ok? ==> forall p :: p in listed <==> Stored(products.partitions, p) && p.categoryId == cid
      ensures r.Ok? ==> Distinct(listed)
      ensures r.Ok? ==> |r.data| == |listed| && forall i :: 0 <= i < |listed| ==> r.data[i] == Shown(listed[i], req)
    {
      listed := [];
      var c := categories.FindById(cid);
      if c.None? {
        r := Error(CategoryNotFound);
        return;
      }
      var ps := products.FindByCategory(cid);
      listed := ps;
      var shown := ShowAll(ps, req);
      r := Ok(shown);
    }

    /** POST /set: the new stock must not be negative; the product takes it,
        and only a change of stock touches the category, whose total then
        moves by the change but never below 0. */
    method SetStock(productId: int, newStock: int, req: Request) returns (r: ApiResult<Product>, ghost before: Product)
      requires Valid()
      modifies products`partitions, categories`records
      ensures Valid()
      ensures newStock < 0 ==> r == Error(NegativeStock)
      ensures newStock >= 0 && !HasId(old(products.partitions), productId) ==> r == Error(ProductNotFound)
      ensures newStock >= 0 && HasId(old(products.partitions), productId) ==> r.Ok?
      ensures r.Error? ==> products.partitions == old(products.partitions)
                           && categories.records == old(categories.records)
      ensures r.Ok? ==>
        && before.id == productId && Stored(old(products.partitions), before)
        && products.partitions == Written(old(products.partitions), before.(stock := newStock))
        && categories.records == Ledger.Rebased(old(categories.records), before.categoryId, newStock - before.stock)
        && r.data == Shown(before.(stock := newStock), req)
      ensures old(Balanced()) ==> Balanced()
    {
      before := Product(productId, 0, "", "", 0);
      if newStock < 0 {
        r := Error(NegativeStock);
        return;
      }
      ghost var parts0, cats0 := products.partitions, categories.records;
      var found := products.FindById(productId);
      if found.None? {
        r := Error(ProductNotFound);
        return;
      }
      var p := found.value;
      before := p;
      var delta := newStock - p.stock;
      var updated := p.(stock := newStock);
      products.Update(updated);
      if delta != 0 {
        var c := categories.FindById(p.categoryId);
        if c.Some? {
          var total := Total(c.value) + delta;
          if total < 0 {
            total := 0;
          }
          categories.Update(WithTotal(c.value, total));
        }
      }
      r := Ok(Shown(updated, req));
      if old(Balanced()) {
        if delta != 0 {
          Ledger.RebasedIsCredited(cats0, categories.nextId, parts0, products.nextId, p, newStock);
          Ledger.RestockKeepsBalance(cats0, categories.nextId, parts0, products.nextId, p, newStock);
        } else {
          Unwritten(parts0, p);
        }
      }
    }
  }

  /** Writing back a product as it is stored changes nothing. */
  lemma Unwritten(parts: Partitions, p: Product)
    requires Stored(parts, p)
    ensures Written(parts, p) == parts
  {
    assert parts[p.categoryId][p.id := p] == parts[p.categoryId];
  }

  /** The imagePath create gives a product resolves to the upload it wrote,
      so deleting the product later deletes that file: for a base URL that
      starts with "http" and holds no "/uploads/" of its own, on a platform
      whose separator is '/'. */
  lemma CreatedImageResolves(baseUrl: string, image: Upload, nameMillis: int, prefixMillis: int, userDir: string)
    requires StartsWith(baseUrl, "http") && Find(baseUrl + Marker, Marker) == Some(|baseUrl|)
    ensures var storedName := ProductController.UploadName(image, nameMillis, prefixMillis);
      ResolveImagePath(ImageUrl(baseUrl, "product", storedName), userDir, '/')
        == Some(UploadPath(userDir, '/', "product", storedName))
  {
    CollectionsAllowed();
    StoredFileNameAllowed(image.originalName, "product", nameMillis, prefixMillis);
    UploadedUrlRoundTrip(baseUrl, "product", ProductController.UploadName(image, nameMillis, prefixMillis), userDir);
  }
}
