/** Uploaded image files: resolving a stored image reference back to a local
    file, and deleting that file. */
module Assets {
  import opened Records
  import opened Urls

  const Marker: string := "/uploads/"

  /** pat occurs in s at index k. */
  predicate At(s: string, pat: string, k: int)
  {
    0 <= k && k + |pat| <= |s| && s[k..k + |pat|] == pat
  }

  /** The index of the first occurrence of pat in s. */
  function Find(s: string, pat: string): (r: Option<nat>)
    requires |pat| > 0
    ensures r.Some? ==> r.value + |pat| <= |s|
    decreases |s|
  {
    if |s| < |pat| then None
    else if s[..|pat|] == pat then Some(0)
    else
      match Find(s[1..], pat)
      case Some(i) => Some(i + 1)
      case None => None
  }

  /** Dropping the first character moves every occurrence one place left. */
  lemma AtShift(s: string, pat: string, k: int)
    requires |s| > 0 && 0 <= k
    ensures At(s, pat, k + 1) <==> At(s[1..], pat, k)
  {
    if k + |pat| <= |s[1..]| {
      assert s[1..][k..k + |pat|] == s[k + 1..k + 1 + |pat|];
    }
  }

  /** Find answers the first occurrence, and None only when there is none. */
  lemma {:induction false} FindIsFirst(s: string, pat: string)
    requires |pat| > 0
    ensures var r := Find(s, pat);
      && (r.Some? ==> At(s, pat, r.value) && forall k :: 0 <= k < r.value ==> !At(s, pat, k))
      && (r.None? ==> forall k :: !At(s, pat, k))
    decreases |s|
  {
    if |s| >= |pat| && s[..|pat|] != pat {
      var t := s[1..];
      FindIsFirst(t, pat);
      assert !At(s, pat, 0);
      forall k | 1 <= k
        ensures At(s, pat, k) <==> At(t, pat, k - 1)
      {
        AtShift(s, pat, k - 1);
      }
    }
  }

  /** The pieces of s between the occurrences of pat, trailing empty pieces included. */
  function Pieces(s: string, pat: string): (r: seq<string>)
    requires |pat| > 0
    ensures |r| >= 1
    decreases |s|
  {
    match Find(s, pat)
    case None => [s]
    case Some(i) => [s[..i]] + Pieces(s[i + |pat|..], pat)
  }

  /** Drop the empty strings at the end (what String.split does with limit 0). */
  function DropTrailingEmpty(ps: seq<string>): seq<string>
  {
    if ps == [] then []
    else if ps[|ps| - 1] == "" then DropTrailingEmpty(ps[..|ps| - 1])
    else ps
  }

  /** String.split with a pattern that has no regex meta-characters. A string
      without a match splits into itself alone. */
  function JavaSplit(s: string, pat: string): (r: seq<string>)
    requires |pat| > 0
    ensures Find(s, pat).None? ==> r == [s]
    ensures |r| <= |Pieces(s, pat)| && r == Pieces(s, pat)[..|r|]
    ensures forall k :: |r| <= k < |Pieces(s, pat)| ==> Pieces(s, pat)[k] == ""
    ensures Find(s, pat).Some? && r != [] ==> r[|r| - 1] != ""
  {
    if Find(s, pat).None? then [s]
    else
      DropTrailingEmptyPrefix(Pieces(s, pat));
      DropTrailingEmpty(Pieces(s, pat))
  }

  /** String.replace of one character by another, everywhere. */
  function ReplaceChar(s: string, from: char, to: char): (r: string)
    ensures |r| == |s|
    ensures forall i :: 0 <= i < |s| ==> r[i] == (if s[i] == from then to else s[i])
  {
    if s == [] then [] else [if s[0] == from then to else s[0]] + ReplaceChar(s[1..], from, to)
  }

  /** The local file an image reference stands for (the shared logic of
      deleteCategoryImage, the two deleteProductImage and deleteImageFile):
      - an empty (or null) reference stands for nothing;
      - a reference starting with "http" stands for <userDir>/uploads/<second
        piece of its split on "/uploads/">, or for nothing when the split has
        fewer than two pieces;
      - a reference starting with "/uploads/" is appended to the project root with
        its '/' turned into the platform separator;
      - anything else is a local path already. */
  function ResolveImagePath(imagePath: string, userDir: string, sep: char): (r: Option<string>)
    ensures r.None? ==> imagePath == "" || StartsWith(imagePath, "http")
    ensures r.Some? && StartsWith(imagePath, "http") ==> StartsWith(r.value, userDir + [sep] + "uploads" + [sep])
    ensures r.Some? && !StartsWith(imagePath, "http") && !StartsWith(imagePath, Marker) ==> r.value == imagePath
  {
    if imagePath == "" then None
    else if StartsWith(imagePath, "http") then
      var parts := JavaSplit(imagePath, Marker);
      if |parts| > 1 then Some(userDir + [sep] + "uploads" + [sep] + parts[1]) else None
    else if StartsWith(imagePath, Marker) then Some(userDir + ReplaceChar(imagePath, '/', sep))
    else Some(imagePath)
  }

  /** The files that deleting the image of a record may remove. */
  function ResolvedFiles(imagePath: string, userDir: string, sep: char): set<string>
  {
    match ResolveImagePath(imagePath, userDir, sep)
    case Some(f) => {f}
    case None => {}
  }

  /** The uploads on disk, with the two System properties the code reads. */
  class FileSystem {
    const userDir: string
    const separator: char
    var files: set<string>

    constructor (userDir: string, separator: char, files: set<string>)
      ensures this.userDir == userDir && this.separator == separator && this.files == files
    {
      this.userDir := userDir;
      this.separator := separator;
      this.files := files;
    }

    /** Resolve the reference and delete that file if it exists. A missing file
        and an empty reference are not errors. (Pruning the emptied parent
        directory is not modelled: directories are not part of this state.) */
    method DeleteImage(imagePath: string)
      modifies this
      ensures files == old(files) - ResolvedFiles(imagePath, userDir, separator)
    {
      var target := ResolveImagePath(imagePath, userDir, separator);
      if target.Some? && target.value in files {
        files := files - {target.value};
      }
    }

    /** Write an upload to path, replacing any file already there. */
    method Store(path: string)
      modifies this
      ensures files == old(files) + {path}
    {
      files := files + {path};
    }
  }

  /** What DropTrailingEmpty keeps: a prefix of the pieces that ends with a
      non-empty piece, everything after it empty. */
  lemma {:induction false} DropTrailingEmptyPrefix(ps: seq<string>)
    ensures var r := DropTrailingEmpty(ps);
      && |r| <= |ps| && r == ps[..|r|]
      && (forall k :: |r| <= k < |ps| ==> ps[k] == "")
      && (r != [] ==> r[|r| - 1] != "")
  {
    if ps != [] && ps[|ps| - 1] == "" {
      DropTrailingEmptyPrefix(ps[..|ps| - 1]);
    }
  }

  /** The split keeps at least two pieces exactly when some piece after the
      first is non-empty, and its second piece is then the second raw piece. */
  lemma SplitHasSecondPiece(s: string, pat: string)
    requires |pat| > 0 && Find(s, pat).Some?
    ensures var parts := JavaSplit(s, pat);
      var ps := Pieces(s, pat);
      && (|parts| > 1 <==> exists k :: 1 <= k < |ps| && ps[k] != "")
      && (|parts| > 1 ==> parts[1] == ps[1])
  {
    var ps := Pieces(s, pat);
    var r := DropTrailingEmpty(ps);
    DropTrailingEmptyPrefix(ps);
    if exists k :: 1 <= k < |ps| && ps[k] != "" {
      var k :| 1 <= k < |ps| && ps[k] != "";
      assert |r| > k;
    }
    if |r| > 1 {
      assert r[|r| - 1] == ps[|r| - 1];
    }
  }

  /** A reference with no "/uploads/" in it resolves to nothing when it starts
      with "http". */
  lemma ResolveHttpWithoutMarker(imagePath: string, userDir: string, sep: char)
    requires StartsWith(imagePath, "http") && Find(imagePath, Marker).None?
    ensures ResolveImagePath(imagePath, userDir, sep).None?
  {
  }

  /** An "http" reference resolves to the uploads root plus the text between the
      first and the second "/uploads/" (or the end), and to nothing exactly when
      every piece after the first marker is empty. */
  lemma ResolveHttp(imagePath: string, userDir: string, sep: char)
    requires StartsWith(imagePath, "http") && Find(imagePath, Marker).Some?
    ensures var ps := Pieces(imagePath, Marker);
      var r := ResolveImagePath(imagePath, userDir, sep);
      && (r.Some? <==> exists k :: 1 <= k < |ps| && ps[k] != "")
      && (r.Some? ==> r.value == userDir + [sep] + "uploads" + [sep] + ps[1])
  {
    assert imagePath != "";
    SplitHasSecondPiece(imagePath, Marker);
  }

  /** The first occurrence of pat in t stays the first one in t + u. */
  lemma {:induction false} FindExtend(t: string, u: string, pat: string)
    requires |pat| > 0 && Find(t, pat).Some?
    ensures Find(t + u, pat) == Find(t, pat)
    decreases |t|
  {
    var s := t + u;
    if t[..|pat|] != pat {
      assert s[..|pat|] == t[..|pat|];
      assert s[1..] == t[1..] + u;
      FindExtend(t[1..], u, pat);
    } else {
      assert s[..|pat|] == t[..|pat|];
    }
  }

  /** A string with at most one '/' holds no "/uploads/". */
  lemma NoMarkerWithOneSlash(s: string, slash: int)
    requires forall i :: 0 <= i < |s| && s[i] == '/' ==> i == slash
    ensures Find(s, Marker).None?
  {
    FindIsFirst(s, Marker);
    forall k | 0 <= k && k + 9 <= |s|
      ensures !At(s, Marker, k)
    {
      assert s[k] != '/' || s[k + 8] != '/';
      assert s[k..k + 9][0] == s[k] && s[k..k + 9][8] == s[k + 8];
    }
  }

  /** "<collection>/<storedName>" has exactly one '/' when neither part has any. */
  lemma OneSlash(collection: string, storedName: string)
    requires AllAllowed(collection) && AllAllowed(storedName)
    ensures var rest := collection + "/" + storedName;
      forall i :: 0 <= i < |rest| && rest[i] == '/' ==> i == |collection|
  {
    var rest := collection + "/" + storedName;
    forall i | 0 <= i < |rest| && i != |collection|
      ensures rest[i] != '/'
    {
      if i < |collection| {
        assert rest[i] == collection[i] && Allowed(collection[i]);
      } else {
        assert rest[i] == storedName[i - |collection| - 1] && Allowed(storedName[i - |collection| - 1]);
      }
    }
  }

  /** A URL whose only "/uploads/" is the one after its base splits into the
      base and the rest. */
  lemma SplitAtOnlyMarker(baseUrl: string, rest: string)
    requires Find(baseUrl + Marker, Marker) == Some(|baseUrl|)
    requires Find(rest, Marker).None?
    ensures Pieces(baseUrl + Marker + rest, Marker) == [baseUrl, rest]
  {
    var s := baseUrl + Marker + rest;
    FindExtend(baseUrl + Marker, rest, Marker);
    assert s[..|baseUrl|] == baseUrl;
    assert s[|baseUrl| + 9..] == rest;
  }

  /** The split of an upload URL on "/uploads/" has "<collection>/<storedName>"
      as its second piece. */
  lemma UploadUrlSplit(baseUrl: string, collection: string, storedName: string)
    requires Find(baseUrl + Marker, Marker) == Some(|baseUrl|)
    requires AllAllowed(collection) && AllAllowed(storedName)
    ensures var parts := JavaSplit(ImageUrl(baseUrl, collection, storedName), Marker);
      |parts| > 1 && parts[1] == collection + "/" + storedName
  {
    var rest := collection + "/" + storedName;
    var s := ImageUrl(baseUrl, collection, storedName);
    assert s == baseUrl + Marker + rest;
    OneSlash(collection, storedName);
    NoMarkerWithOneSlash(rest, |collection|);
    SplitAtOnlyMarker(baseUrl, rest);
    FindExtend(baseUrl + Marker, rest, Marker);
    SplitHasSecondPiece(s, Marker);
    assert Pieces(s, Marker)[1] == rest != "";
  }

  /** The image URL the controllers build for an upload resolves back to the
      file that was written, so deleting the record deletes its upload: for a
      base URL starting with "http" whose first "/uploads/" is the one appended,
      and a collection and stored name free of '/', the reference resolves to
      <userDir>/uploads/<collection>/<storedName>. */
  lemma UploadedUrlRoundTrip(baseUrl: string, collection: string, storedName: string, userDir: string)
    requires StartsWith(baseUrl, "http")
    requires Find(baseUrl + Marker, Marker) == Some(|baseUrl|)
    requires AllAllowed(collection) && AllAllowed(storedName)
    ensures ResolveImagePath(ImageUrl(baseUrl, collection, storedName), userDir, '/')
      == Some(UploadPath(userDir, '/', collection, storedName))
  {
    var s := ImageUrl(baseUrl, collection, storedName);
    var rest := collection + "/" + storedName;
    HttpPrefixKept(baseUrl, Marker + rest);
    UploadUrlSplit(baseUrl, collection, storedName);
    ResolveSecondPiece(s, userDir, '/');
    UploadPathShape(userDir, collection, storedName);
  }

  lemma UploadPathShape(userDir: string, collection: string, storedName: string)
    ensures UploadPath(userDir, '/', collection, storedName) == userDir + ['/'] + "uploads" + ['/'] + (collection + "/" + storedName)
  {
  }

  lemma HttpPrefixKept(a: string, b: string)
    requires StartsWith(a, "http")
    ensures StartsWith(a + b, "http")
  {
    assert (a + b)[..4] == a[..4];
  }

  lemma ResolveSecondPiece(s: string, userDir: string, sep: char)
    requires StartsWith(s, "http") && |JavaSplit(s, Marker)| > 1
    ensures ResolveImagePath(s, userDir, sep) == Some(userDir + [sep] + "uploads" + [sep] + JavaSplit(s, Marker)[1])
  {
  }

  /** A reference that starts with "/uploads/" is not an http one: it is
      joined to the project root with the platform separator. */
  lemma ResolveRelative(s: string, userDir: string, sep: char)
    requires StartsWith(s, Marker)
    ensures ResolveImagePath(s, userDir, sep) == Some(userDir + ReplaceChar(s, '/', sep))
  {
    assert s[0] == '/';
    assert !StartsWith(s, "http") by {
      if |s| >= 4 { assert s[..4][0] == '/'; }
    }
  }

  /** Turning the '/' of "/uploads/<collection>/<name>" into the separator
      touches exactly the three slashes, since neither name holds one. */
  lemma ReplaceUploadSlashes(collection: string, storedName: string, userDir: string, sep: char)
    requires AllAllowed(collection) && AllAllowed(storedName)
    ensures userDir + ReplaceChar("/uploads/" + collection + "/" + storedName, '/', sep)
      == UploadPath(userDir, sep, collection, storedName)
  {
    var s := "/uploads/" + collection + "/" + storedName;
    var r := ReplaceChar(s, '/', sep);
    var expected := [sep] + "uploads" + [sep] + collection + [sep] + storedName;
    assert |r| == |expected|;
    forall i | 0 <= i < |r|
      ensures r[i] == expected[i]
    {
      if 9 <= i < 9 + |collection| {
        assert s[i] == collection[i - 9] && Allowed(collection[i - 9]);
      } else if i > 9 + |collection| {
        assert s[i] == storedName[i - 10 - |collection|] && Allowed(storedName[i - 10 - |collection|]);
      }
    }
    assert r == expected;
    assert userDir + expected == UploadPath(userDir, sep, collection, storedName);
  }

  /** The relative URL of an upload starts with the marker. */
  lemma UploadsPrefix(collection: string, storedName: string)
    ensures StartsWith("/uploads/" + collection + "/" + storedName, Marker)
  {
    var s := "/uploads/" + collection + "/" + storedName;
    assert s[..9] == Marker;
  }

  /** A root-relative "/uploads/..." reference resolves to the project root plus
      the same path written with the platform separator. */
  lemma RelativeUploadResolves(collection: string, storedName: string, userDir: string, sep: char)
    requires AllAllowed(collection) && AllAllowed(storedName)
    ensures ResolveImagePath("/uploads/" + collection + "/" + storedName, userDir, sep)
      == Some(UploadPath(userDir, sep, collection, storedName))
  {
    var s := "/uploads/" + collection + "/" + storedName;
    UploadsPrefix(collection, storedName);
    ResolveRelative(s, userDir, sep);
    ReplaceUploadSlashes(collection, storedName, userDir, sep);
  }
}
