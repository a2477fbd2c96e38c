// The category store: one JSON file per category under data/categories,
// named "<id>.json", plus an id counter recovered from the file names.
module CategoryStore {
  import opened Records
  import opened Decimal
  import opened Assets

  /** Every readable file holds the record whose id names the file. */
  predicate KeyedById(records: map<int, Category>)
  {
    forall id :: id in records ==> records[id].id == id
  }

  /** Every stored id lies below the next id the counter hands out. */
  predicate IdsBelow(records: map<int, Category>, nextId: int)
  {
    forall id :: id in records ==> id < nextId
  }

  /** The uploaded files the records' image references resolve to. */
  function ImageFiles(records: map<int, Category>, userDir: string, sep: char): set<string>
  {
    set id, f | id in records && f in ResolvedFiles(records[id].imagePath, userDir, sep) :: f
  }

  /** The ids of a list of records. */
  function Ids(cs: seq<Category>): set<int>
  {
    set c | c in cs :: c.id
  }

  /** The uploaded files a list of records' image references resolve to. */
  function ListedImageFiles(cs: seq<Category>, userDir: string, sep: char): set<string>
  {
    set c, f | c in cs && f in ResolvedFiles(c.imagePath, userDir, sep) :: f
  }

  /** A listing of the directory names the file of every record it holds. */
  predicate Lists(names: seq<string>, records: map<int, Category>)
  {
    forall id :: id in records ==> InLong(id) && FileName(id) in names
  }

  lemma ListedSnoc(cs: seq<Category>, c: Category, userDir: string, sep: char)
    ensures Ids(cs + [c]) == Ids(cs) + {c.id}
    ensures ListedImageFiles(cs + [c], userDir, sep)
         == ListedImageFiles(cs, userDir, sep) + ResolvedFiles(c.imagePath, userDir, sep)
  {
    assert forall d :: d in cs + [c] <==> d in cs || d == c;
  }

  /** A listing holding exactly the stored records covers their ids and images. */
  lemma ListedAll(cs: seq<Category>, records: map<int, Category>, userDir: string, sep: char)
    requires KeyedById(records)
    requires forall c :: c in cs <==> c.id in records && records[c.id] == c
    ensures Ids(cs) == records.Keys
    ensures ListedImageFiles(cs, userDir, sep) == ImageFiles(records, userDir, sep)
  {
    forall id | id in records
      ensures id in Ids(cs)
    {
      assert records[id] in cs;
    }
    forall f | f in ImageFiles(records, userDir, sep)
      ensures f in ListedImageFiles(cs, userDir, sep)
    {
      var id :| id in records && f in ResolvedFiles(records[id].imagePath, userDir, sep);
      assert records[id] in cs;
    }
  }

  class CategoryRepository {
    /** Where uploaded images live; shared with the product store. */
    const fs: FileSystem
    /** The readable category files, by the id in their name. */
    var records: map<int, Category>
    /** The AtomicLong id generator. */
    var nextId: int

    ghost predicate Valid()
      reads this
    {
      KeyedById(records)
    }

    /** Opens the directory: the counter becomes one above the largest id
        among the file names that parse, or 1 when none does. */
    constructor (fs: FileSystem, names: seq<string>, stored: map<int, Category>)
      requires KeyedById(stored)
      ensures Valid() && this.fs == fs && records == stored
      ensures nextId == MaxParsed(names) + 1
      ensures Lists(names, stored) ==> IdsBelow(records, nextId)
    {
      var next := RecoverNextId(names);
      this.fs := fs;
      records := stored;
      nextId := next;
      new;
      if Lists(names, stored) {
        forall id | id in stored
          ensures id < next
        {
          RecoveredAboveListed(names, id);
        }
      }
    }

    /** Writes a new category under the next id, with a total of zero. */
    method Save(name: string, imagePath: string) returns (c: Category)
      requires Valid()
      modifies this`records, this`nextId
      ensures Valid()
      ensures c == Category(old(nextId), name, imagePath, Some(0))
      ensures records == old(records)[c.id := c] && nextId == old(nextId) + 1
      ensures IdsBelow(old(records), old(nextId)) ==> c.id !in old(records) && IdsBelow(records, nextId)
    {
      c := Category(nextId, name, imagePath, Some(0));
      nextId := nextId + 1;
      records := records[c.id := c];
    }

    /** Overwrites the file named after the record's id. */
    method Update(c: Category)
      requires Valid()
      modifies this`records
      ensures Valid()
      ensures records == old(records)[c.id := c]
    {
      records := records[c.id := c];
    }

    /** Reads "<id>.json"; None when there is no readable file. */
    method FindById(id: int) returns (r: Option<Category>)
      requires Valid()
      ensures r.Some? <==> id in records
      ensures r.Some? ==> r.value == records[id] && r.value.id == id
    {
      if id in records {
        r := Some(records[id]);
      } else {
        r := None;
      }
    }

    /** Reads every file of the directory, in listing order. */
    method FindAll() returns (r: seq<Category>)
      requires Valid()
      ensures forall c :: c in r <==> c.id in records && records[c.id] == c
      ensures Distinct(r)
    {
      ghost var keys: seq<int>;
      r, keys := ListValues(records);
      assert forall i :: 0 <= i < |r| ==> r[i].id == keys[i];
      assert forall i, j :: 0 <= i < j < |r| ==> r[i].id != r[j].id;
    }

    /** Deletes the record's file and then its image; false when the
        record cannot be read. */
    method Delete(id: int) returns (ok: bool)
      requires Valid()
      modifies this`records, fs
      ensures Valid()
      ensures ok <==> id in old(records)
      ensures ok ==> records == old(records) - {id}
      ensures ok ==> fs.files == old(fs.files) - ResolvedFiles(old(records)[id].imagePath, fs.userDir, fs.separator)
      ensures !ok ==> records == old(records) && fs.files == old(fs.files)
    {
      var found := FindById(id);
      if found.None? {
        return false;
      }
      records := records - {id};
      fs.DeleteImage(found.value.imagePath);
      ok := true;
    }

    /** Deletes the image and then the file of every readable record, and
        puts the counter back to 1. */
    method DeleteAll()
      requires Valid()
      modifies this`records, this`nextId, fs
      ensures Valid()
      ensures records == map[] && nextId == 1
      ensures fs.files == old(fs.files) - ImageFiles(old(records), fs.userDir, fs.separator)
    {
      var all := FindAll();
      ghost var records0, files0 := records, fs.files;
      ghost var done: seq<Category> := [];
      var i := 0;
      while i < |all|
        invariant 0 <= i <= |all| && done == all[..i]
        invariant Valid()
        invariant records == records0 - Ids(done)
        invariant fs.files == files0 - ListedImageFiles(done, fs.userDir, fs.separator)
      {
        var c := all[i];
        ListedSnoc(done, c, fs.userDir, fs.separator);
        fs.DeleteImage(c.imagePath);
        records := records - {c.id};
        done := done + [c];
        i := i + 1;
      }
      assert done == all;
      ListedAll(all, records0, fs.userDir, fs.separator);
      nextId := 1;
    }
  }
}
