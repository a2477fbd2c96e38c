# Inventory ledger: a verified model

This project models the core of a small Spring Boot inventory service that
keeps its data in JSON files. There are two record kinds:

- **categories**: one file `data/categories/<id>.json` each, with a cached
  `totalCount`;
- **products**: one file `data/products/category_<categoryId>/<id>.json` each,
  with a `stock`.

Each category's `totalCount` is meant to equal the sum of the stock of the
products filed under it. The two repositories keep id counters that are
recovered from the file names at start-up. The two REST controllers move
stock (`in`, `out`, `set`), create records with an uploaded image, and delete
categories with a cascade onto their products and image files.

## How the model is built

- `records.dfy` (module `Records`): the `Category` and `Product` records, the
  null-as-0 reading of a category total, the `ApiResult` wrapper with one
  `Reason` per error message, and `ListValues`, which is `File.listFiles` on
  a directory seen as a map (every entry once, in an order the platform
  picks).
- `decimal.dfy` (module `Decimal`): `Long.toString`, `Long.parseLong` and
  `String.replace(".json", "")`. These are the file-name layer the
  `initId` scans read. The scans themselves are the loops `RecoverNextId` and
  `RecoverNextIdAll`.
- `urls.dfy` (module `Urls`): upload file-name sanitising, the stored file
  name, `getBaseUrl`, the image URL and path, and `updateImageUrl`.
- `assets.dfy` (module `Assets`):
  - the three-way resolution of an image reference to a local file
    (`ResolveImagePath`). The source has three copies of this logic
    (`CategoryRepository.deleteCategoryImage`, `ProductRepository.deleteProductImage`
    and `CategoryController.deleteProductImage`); here it is defined once;
  - `String.split` for a pattern without regex meta-characters;
  - the `FileSystem` class, which holds the set of uploaded files.
- `category_repository.dfy` (module `CategoryStore`): `CategoryRepository`, a
  class whose `records: map<int, Category>` stands for the readable files of
  the directory, by id. `nextId` is the `AtomicLong`.
- `product_order.dfy` (module `ProductOrder`): the `(categoryId, id)` order
  and the sort `findAll` applies.
- `product_repository.dfy` (module `ProductStore`): `ProductRepository`,
  whose `partitions: map<int, map<int, Product>>` maps each `category_<cid>`
  directory to its readable files by id. It holds a reference to the
  category repository, so `delete` can debit a category.
- `ledger.dfy` (module `Ledger`):
  - the stock sum of a partition;
  - the invariant `Balanced`, made of:
    - every file is keyed by the ids it holds;
    - ids are unique across partitions and lie below the counters;
    - every stored product has an existing category;
    - every category total equals its partition's stock;
    - no stock is negative;
  - the lemmas showing that each controller step keeps `Balanced`.
- `product_controller.dfy` (module `ProductApi`) and `category_controller.dfy`
  (module `CategoryApi`): the two controllers as classes over the shared
  repositories. Each request handler is a method.
  - Every handler states which inputs fail with which error, that an error
    leaves the stores unchanged, and that the remaining inputs succeed. A
    success gives the new stores as functions of the old. The one exception
    is category delete: its new stores are stated only when product ids are
    unique across partitions (see "## Left out").
  - Every handler that changes the stores promises
    `old(Balanced()) ==> Balanced()`, except product create. Product create
    promises that the books stay aligned, and that the whole of `Balanced`
    is kept only when the new stock is not negative (the code accepts a
    negative stock).

A file that cannot be parsed as JSON is absent from the maps, exactly as every
reader in the source skips it. The following are parameters:

- the request's scheme, host and port;
- the configured base URL;
- the two `System.currentTimeMillis()` readings of an upload;
- `user.dir` and `File.separator`, which are constants of the `FileSystem`
  object.

`getBaseUrl` expects the scheme to be `http` or `https`. It appends `:port`
only for `http` on a port other than 80 and `https` on a port other than 443.
A scheme other than these two, which the source does not expect, never gets a
port. The model follows the code.

## Model

| member | source | states |
|---|---|---|
| Records.ListValues | src/main/java/com/example/record/repository/CategoryRepository.java:62-74 | `File.listFiles` over a directory seen as a map: every entry exactly once, each value paired with its own key, and nothing else |
| Decimal.ShowLong | src/main/java/com/example/record/repository/CategoryRepository.java:76-82 | `Long.toString`: a non-empty string that starts with `-` exactly for a negative number, followed by decimal digits only; `Decimal.ParseShowLong` is its inverse |
| Decimal.ParseLong | src/main/java/com/example/record/repository/CategoryRepository.java:31 | `Long.parseLong`: a value, when there is one, always lies in the 64-bit range; a text that is not an optional sign followed by decimal digits, or whose value lies outside that range, gives None (the `NumberFormatException` the scan catches) |
| Decimal.RemoveAll | src/main/java/com/example/record/repository/CategoryRepository.java:31 | `replace(".json", "")`: the result is never longer than the name, and a name without a `.` comes back unchanged (the `.json` suffix itself is removed, see `Decimal.FileNameRoundTrip`) |
| Decimal.FileName | src/main/java/com/example/record/repository/CategoryRepository.java:76-82 | the name a record is written to always ends with `.json`; `Decimal.FileNameRoundTrip` reads it back |
| Decimal.ParseShowLong | src/main/java/com/example/record/repository/CategoryRepository.java:76-82 | `Long.parseLong(Long.toString(i)) == i` for every 64-bit id written as a file name |
| Decimal.FileNameRoundTrip | src/main/java/com/example/record/repository/CategoryRepository.java:25-37 | the scan reads the name `<id>.json` of a written record back as exactly `id` |
| Decimal.MaxParsedIsUpperBound | src/main/java/com/example/record/repository/CategoryRepository.java:25-37 | the recovered maximum is at least 0 and at least every id parsed from a name; unparseable names are skipped |
| Decimal.MaxParsedIsAttained | src/main/java/com/example/record/repository/CategoryRepository.java:25-37 | the recovered maximum is 0 or the id parsed from one of the names |
| Decimal.RaiseAllConcat | src/main/java/com/example/record/repository/ProductRepository.java:28-46 | scanning the directories one after another equals scanning their concatenated listings |
| Decimal.RecoverNextId | src/main/java/com/example/record/repository/CategoryRepository.java:25-37 | the category `initId` loop sets the counter to 1 + the largest parsed name, or 1 when none parses |
| Decimal.RecoverNextIdAll | src/main/java/com/example/record/repository/ProductRepository.java:28-46 | the product `initId` double loop gives 1 + the largest id parsed across all partition listings, or 1 |
| Decimal.RecoveredAboveListed | src/main/java/com/example/record/repository/CategoryRepository.java:25-47 | after a restart every listed record's id lies below the counter, so `save` cannot overwrite it |
| Urls.SafeFileName | src/main/java/com/example/record/controller/CategoryController.java:69-76 | the name before the time prefix is never empty, and a non-blank original name keeps its length (each character is kept or replaced in place) |
| Urls.StoredFileName | src/main/java/com/example/record/controller/CategoryController.java:78 | the on-disk name ends with `_` followed by the safe name, unchanged |
| Urls.BaseUrl | src/main/java/com/example/record/controller/CategoryController.java:273-291 | `getBaseUrl`: a configured base URL is returned as it is; otherwise the result starts with `scheme://host` (the port rule is `Urls.BaseUrlPort`) |
| Urls.WithBaseUrl | src/main/java/com/example/record/controller/ProductController.java:367-376 | `updateImageUrl`: the result is never shorter than the path, and a path that does not start with `/uploads/` is returned unchanged (that the result ends with the path is `Urls.WithBaseUrlOnlyUploads`) |
| Urls.IsBlank | src/main/java/com/example/record/controller/CategoryController.java:72 | `trim().isEmpty()`: the empty name is blank, and a blank name holds no character the sanitiser keeps |
| Urls.ImageUrl | src/main/java/com/example/record/controller/CategoryController.java:115 | `baseUrl + "/uploads/<collection>/" + finalFilename`: the URL starts with the base URL, and its length is the parts' lengths plus the ten characters of the fixed separators |
| Urls.UploadPath | src/main/java/com/example/record/controller/CategoryController.java:61-79 | `uploadDir + File.separator + finalFilename`: the path starts with `user.dir` followed by the separator, and its length is the parts' lengths plus the ten characters of `uploads` and three separators |
| Urls.Sanitize | src/main/java/com/example/record/controller/CategoryController.java:69-76 | same length as the original name; each character outside `[a-zA-Z0-9._-]` becomes `_`, the others stay in place |
| Urls.SanitizeKeepsAllowed | src/main/java/com/example/record/controller/CategoryController.java:69-76 | the result holds only allowed characters; a name is unchanged if and only if it was already clean; sanitising twice equals sanitising once |
| Urls.StoredFileNameAllowed | src/main/java/com/example/record/controller/CategoryController.java:69-78 | `<millis>_<safe name>` (with `category_<millis>.jpg` for a null or blank name) is non-empty and free of `/`, whatever the client sent |
| Urls.BaseUrlPort | src/main/java/com/example/record/controller/ProductController.java:346-364 | a configured base URL wins. Otherwise the result is `scheme://host`, and `:port` is appended exactly when the scheme is http with port ≠ 80 or https with port ≠ 443 (RFC 7230 sections 2.7.1 and 2.7.2); the port reads back as the same number |
| Urls.WithBaseUrlOnlyUploads | src/main/java/com/example/record/controller/ProductController.java:367-376 | the result always ends with the original path. It differs exactly for a `/uploads/` path with a non-empty base; `http…` and empty paths are unchanged |
| Assets.JavaSplit | src/main/java/com/example/record/repository/CategoryRepository.java:121 | `split("/uploads/")`: a text without the marker gives itself alone; otherwise a prefix of the pieces between the markers that leaves out only empty pieces and does not end with an empty one, so every trailing empty piece is dropped |
| Assets.ReplaceChar | src/main/java/com/example/record/repository/CategoryRepository.java:131 | `replace("/", File.separator)`: the length is kept, every `/` becomes the separator, and every other character stays in place (also ProductRepository.java:195 and CategoryController.java:244) |
| Assets.ResolveImagePath | src/main/java/com/example/record/repository/CategoryRepository.java:110-141 | only an empty or an `http…` reference resolves to no file; an `http…` reference resolves under `<user.dir>/uploads/`; a reference that is neither `http…` nor `/uploads/…` is a local path and resolves to itself (the same logic is at ProductRepository.java:177-205 and CategoryController.java:225-270) |
| Assets.FindIsFirst | src/main/java/com/example/record/repository/CategoryRepository.java:121 | the split's search finds the first occurrence of the pattern, and reports none only when there is none |
| Assets.SplitHasSecondPiece | src/main/java/com/example/record/repository/CategoryRepository.java:121-123 | `split` (with its trailing empty pieces dropped) has a second piece exactly when some piece after the first is non-empty, and that piece is the raw second piece |
| Assets.ResolveHttpWithoutMarker | src/main/java/com/example/record/repository/CategoryRepository.java:117-127 | an `http…` reference without `/uploads/` resolves to no file |
| Assets.ResolveHttp | src/main/java/com/example/record/repository/CategoryRepository.java:117-127 | an `http…` reference resolves to `<user.dir>/uploads/<text between the first and second /uploads/>`, and to nothing exactly when every piece after the first marker is empty |
| Assets.RelativeUploadResolves | src/main/java/com/example/record/repository/CategoryRepository.java:128-132 | `/uploads/<collection>/<name>` resolves to `user.dir` + the same path with the platform separator |
| Assets.UploadedUrlRoundTrip | src/main/java/com/example/record/controller/CategoryController.java:78-115 | the URL create builds for an upload resolves back to the file it wrote, for an `http` base URL free of `/uploads/` |
| Assets.FileSystem.DeleteImage | src/main/java/com/example/record/repository/CategoryRepository.java:110-162 | the resolved file is removed if present. An empty reference or a missing file changes nothing; nothing else changes |
| Assets.FileSystem.Store | src/main/java/com/example/record/controller/CategoryController.java:84 | the upload's path is added to the files |
| CategoryStore.ListedAll | src/main/java/com/example/record/repository/CategoryRepository.java:164-179 | a listing of exactly the stored records covers all their ids and all their images |
| CategoryStore.CategoryRepository.constructor | src/main/java/com/example/record/repository/CategoryRepository.java:20-37 | the counter is 1 + the largest parsed file name; when the listing names every record, all ids are below it |
| CategoryStore.CategoryRepository.Save | src/main/java/com/example/record/repository/CategoryRepository.java:39-47 | the new record has the old counter as id and a total of 0 and is stored under that id; the counter grows by exactly 1; with ids below the counter, no record is overwritten |
| CategoryStore.CategoryRepository.Update | src/main/java/com/example/record/repository/CategoryRepository.java:49-51 | the file of `c.id` now holds `c`; every other record is unchanged |
| CategoryStore.CategoryRepository.FindById | src/main/java/com/example/record/repository/CategoryRepository.java:53-60 | null (None) exactly when no readable file has this id, otherwise that record |
| CategoryStore.CategoryRepository.FindAll | src/main/java/com/example/record/repository/CategoryRepository.java:62-74 | every readable record exactly once, and nothing else |
| CategoryStore.CategoryRepository.Delete | src/main/java/com/example/record/repository/CategoryRepository.java:84-108 | false with no change when the record is unreadable; otherwise the record and its image file are gone, and products are not touched |
| CategoryStore.CategoryRepository.DeleteAll | src/main/java/com/example/record/repository/CategoryRepository.java:164-189 | no record is left, the counter is 1, and exactly the images of the old records are deleted |
| ProductOrder.Insert | src/main/java/com/example/record/repository/ProductRepository.java:111-116 | inserting keeps every element and adds exactly one (a multiset equation) |
| ProductOrder.InsertSorted | src/main/java/com/example/record/repository/ProductRepository.java:111-116 | insertion into a list sorted by `(categoryId, id)` keeps it sorted |
| ProductOrder.InsertStrict | src/main/java/com/example/record/repository/ProductRepository.java:111-116 | with distinct keys, insertion keeps the list strictly increasing |
| ProductOrder.Sort | src/main/java/com/example/record/repository/ProductRepository.java:111-116 | the result is a permutation of the input, sorted by `(categoryId, id)`, strictly when the keys are distinct |
| ProductStore.Written | src/main/java/com/example/record/repository/ProductRepository.java:121-133 | `p` is stored under `(p.categoryId, p.id)`, every record with another key stays as it was, and a copy in another partition stays too |
| ProductStore.Removed | src/main/java/com/example/record/repository/ProductRepository.java:160-175 | the file goes and every other record stays; the directory goes exactly when the file was its last one; other directories are unchanged |
| ProductStore.Debited | src/main/java/com/example/record/repository/ProductRepository.java:207-229 | the owning category's total becomes max(0, total − stock), with null counting as 0; other categories are unchanged; nothing changes when the category is missing |
| ProductStore.ListedAll | src/main/java/com/example/record/repository/ProductRepository.java:231-242 | a listing of exactly the stored products covers all their images |
| ProductStore.ProductRepository.constructor | src/main/java/com/example/record/repository/ProductRepository.java:22-46 | the counter is 1 + the largest id parsed across all partition listings (not 1000), and is above every listed id |
| ProductStore.ProductRepository.Save | src/main/java/com/example/record/repository/ProductRepository.java:48-57 | the new product has the old counter as id and the given fields and is stored in its partition; the counter grows by 1; with ids below the counter the new id is fresh and ids stay unique |
| ProductStore.ProductRepository.Update | src/main/java/com/example/record/repository/ProductRepository.java:121-133 | the partitions become `Written(old, p)` |
| ProductStore.ProductRepository.FindById | src/main/java/com/example/record/repository/ProductRepository.java:59-72 | None exactly when no partition holds a readable file with this id, otherwise a stored record with that id |
| ProductStore.ProductRepository.FindByCategory | src/main/java/com/example/record/repository/ProductRepository.java:74-87 | exactly the readable records of partition `cid`, each once; empty when the directory is missing |
| ProductStore.ProductRepository.FindAll | src/main/java/com/example/record/repository/ProductRepository.java:89-119 | exactly the readable records of all partitions, strictly increasing by `(categoryId, id)` |
| ProductStore.ProductRepository.Delete | src/main/java/com/example/record/repository/ProductRepository.java:135-175 | false with no change when no partition holds the id. Otherwise: the record found is removed (its directory too if it became empty), its image is deleted, and its category is debited with the clamp |
| ProductStore.ProductRepository.DeleteAll | src/main/java/com/example/record/repository/ProductRepository.java:231-260 | no product is left, the counter is 1000, exactly the images of the old products are deleted, and categories are not touched |
| Ledger.Credited | src/main/java/com/example/record/controller/ProductController.java:208-214 | the owning category's total (null as 0) moves by exactly delta, with no floor; the other categories stay; a missing category changes nothing |
| Ledger.Rebased | src/main/java/com/example/record/controller/ProductController.java:310-331 | a zero delta changes nothing; otherwise the owning category's total becomes max(0, total + delta) |
| Ledger.RestockKeepsBalance | src/main/java/com/example/record/controller/ProductController.java:197-214 | rewriting a stored product with a new non-negative stock, and moving its category's total by the change, keeps the ledger balanced |
| Ledger.RebasedIsCredited | src/main/java/com/example/record/controller/ProductController.java:310-331 | in a balanced ledger setStock's clamp never fires, so a non-zero change is credited as it is |
| Ledger.DeleteKeepsBalance | src/main/java/com/example/record/repository/ProductRepository.java:135-229 | deleting a stored product keeps the ledger balanced, and its clamped debit equals an exact debit of its stock |
| Ledger.CreateKeepsBooks | src/main/java/com/example/record/controller/ProductController.java:109-126 | a product saved under the next id in an existing category, with that category credited by its stock, keeps the totals aligned. Stock stays non-negative only when the new stock is |
| Ledger.CategoryDeleteKeepsBalance | src/main/java/com/example/record/controller/CategoryController.java:159-191 | removing a category together with its partition keeps the ledger balanced, and so does removing it when the partition has no readable file left |
| Ledger.CategoryCreateKeepsBalance | src/main/java/com/example/record/repository/CategoryRepository.java:39-47 | a new category under the next id with a total of 0 keeps the ledger balanced |
| ProductApi.ProductController.In | src/main/java/com/example/record/controller/ProductController.java:185-226 | count ≤ 0 fails first and an unknown product fails next, each with no change. Every other call succeeds: the stock grows by count and the category total grows by count (null as 0, when the category exists); the response shows the product with its URL fixed; balance is kept |
| ProductApi.ProductController.Out | src/main/java/com/example/record/controller/ProductController.java:228-274 | count ≤ 0, an unknown product and stock < count fail with no change. Otherwise the stock shrinks by count (count == stock leaves 0) and the category total shrinks by count with no floor; balance is kept |
| ProductApi.ProductController.SetStock | src/main/java/com/example/record/controller/ProductController.java:276-343 | a negative stock and an unknown product fail with no change. Otherwise the stock becomes the new value and the category moves by `Rebased`: untouched when the delta is 0, clamped at 0 otherwise; balance is kept |
| ProductApi.ProductController.SaveUpload | src/main/java/com/example/record/controller/ProductController.java:44-107 | a non-empty upload is written to `<user.dir>/uploads/product/<millis>_<safe name>` and its served URL is returned; without one nothing is written and the reference is empty |
| ProductApi.ProductController.Create | src/main/java/com/example/record/controller/ProductController.java:32-135 | a non-empty upload is written first. A missing category then fails with no record saved, and the image stays. Otherwise the product gets the next id and the image URL (or ""), and the category total grows by the stock, negative stock included; books are kept, and balance when stock ≥ 0 |
| ProductApi.ProductController.ShowAll | src/main/java/com/example/record/controller/ProductController.java:145-147 | the loop of `updateImageUrl` keeps each product in place and fixes only its image path |
| ProductApi.ProductController.All | src/main/java/com/example/record/controller/ProductController.java:137-155 | every stored product, sorted by `(categoryId, id)`, each with its URL fixed |
| ProductApi.ProductController.List | src/main/java/com/example/record/controller/ProductController.java:157-183 | `CategoryNotFound` exactly when the category is missing, and no other error; otherwise exactly the products of its partition, each once, with fixed URLs |
| ProductApi.CreatedImageResolves | src/main/java/com/example/record/controller/ProductController.java:60-94 | the image URL a product is created with resolves to the upload that was written, so deleting the product deletes its image |
| CategoryApi.CategoryController.Create | src/main/java/com/example/record/controller/CategoryController.java:44-136 | fails, changing nothing, exactly when the upload's target file exists already (`Files.copy` does not replace). Otherwise the file is written and the category is saved under the next id with total 0 and the built URL; balance is kept |
| CategoryApi.CategoryController.List | src/main/java/com/example/record/controller/CategoryController.java:138-157 | every readable category exactly once, in listing order, with the base URL prefixed onto `/uploads/` paths only |
| CategoryApi.CategoryController.Delete | src/main/java/com/example/record/controller/CategoryController.java:159-191 | the images of the listed products are deleted even when the category turns out to be missing. Then the error leaves records unchanged. On success, when product ids are unique across partitions: the category is gone, its products are gone, other categories' totals are untouched, and the category image is deleted; balance is kept |
| CategoryApi.RemainsStep | src/main/java/com/example/record/controller/CategoryController.java:177-181 | in the cascade, each `productRepo.delete(p.id)` removes exactly the listed product `p` (ids are unique) and nothing else |
| CategoryApi.RemainsDone | src/main/java/com/example/record/controller/CategoryController.java:177-181 | after the cascade the partitions are the old ones without the category's directory; a directory that held no readable file stays |
| CategoryApi.CategoryController.DeleteAll | src/main/java/com/example/record/controller/CategoryController.java:193-223 | both stores end empty, with counters 1 and 1000, and exactly the images of the old products and of the old categories are deleted; the result is balanced |

## Left out

- Real file I/O. A directory is a map from key to readable record, and
  uploaded files are a set of paths. `mkdirs`, directory pruning after an
  image delete, and `deleteDirectory` leave no trace here.
- JSON encoding and decoding with Jackson. A corrupt file is absent from the
  maps. The record inside `<id>.json` is assumed to carry that id, and a
  product file is assumed to sit in the partition of its `categoryId`: these
  are the `KeyedById` and `Consistent` invariants. A file that breaks them is
  not modelled.
- The server side of HTTP. The request's scheme, host and port, the configured
  base URL, `user.dir`, `File.separator` and `System.currentTimeMillis()` are
  parameters. The multipart part is its original file name and its size.
- Logging, and the `try`/`catch` blocks that only log. A `transferTo` that
  throws after `Files.copy` has failed in product create is not modelled: the
  file is taken to be written.
- Concurrency and `AtomicLong` atomicity: the counters are plain fields
  updated sequentially.
- Java `Long` overflow of ids, stocks and totals: integers are unbounded. The
  file-name parser does enforce the 64-bit range.
- A null `stock` in a product file; a null category total is modelled, and
  counts as 0.
- `Decimal.ParseLong` takes only the digits '0'–'9'. Java's `Long.parseLong`
  also takes the other Unicode decimal digits (those `Character.digit(c, 10)`
  accepts), so a file named with them raises the Java counter but not the
  model's.
- `CategoryApi.CategoryController.Delete`: the new state after a successful
  delete is stated only when product ids are unique across partitions. `productRepo.delete(id)` looks a product up by id in every
  partition. With duplicate ids it may therefore delete, and debit, a product
  of another category, and the model does not describe which.
- `Assets.UploadedUrlRoundTrip`, `ProductApi.CreatedImageResolves`: proved for
  the separator `/` and for a base URL that starts with `http` and has no
  `/uploads/` of its own. With another separator the `http` branch keeps the
  `/` after `uploads`, and the resolved path differs from the written one as a
  string (see the note on `File` path normalisation below).
- Removing a directory once it is empty. `ProductStore.Removed` drops a
  partition when its last readable record goes. The code deletes the
  directory only when it holds no file at all (ProductRepository.java:170),
  so a leftover unreadable file keeps it. Under the map abstraction the two
  cannot be told apart.
- `File` path normalisation. Image paths are compared as strings. With a
  separator other than `/`, `…\uploads\category/x.jpg` and
  `…\uploads\category\x.jpg` differ here, although the platform may take
  them for the same file.
- UTF-16 code units. `Urls.Sanitize` and `Urls.SafeFileName` count characters,
  which are code points, whereas Java's `replaceAll` works per code point
  and `length()` counts UTF-16 units. A name outside the Basic Multilingual
  Plane is therefore shorter here than Java's `length()` says.
