/** The string functions of the upload and URL code in the two controllers. */
module Urls {
  import opened Records
  import opened Decimal

  /** What getBaseUrl reads from the HttpServletRequest. */
  datatype Request = Request(scheme: string, serverName: string, serverPort: int)

  /** A multipart image part: its original file name (Java null is None) and size. */
  datatype Upload = Upload(originalName: Option<string>, size: nat)

  /** image != null && !image.isEmpty(): a part was sent and it has content. */
  predicate Uploaded(image: Option<Upload>)
  {
    image.Some? && image.value.size > 0
  }

  predicate StartsWith(s: string, prefix: string)
  {
    |prefix| <= |s| && s[..|prefix|] == prefix
  }

  /** The character class [a-zA-Z0-9._-] kept by the sanitising regex. */
  predicate Allowed(c: char)
  {
    ('a' <= c <= 'z') || ('A' <= c <= 'Z') || ('0' <= c <= '9') || c == '.' || c == '_' || c == '-'
  }

  predicate AllAllowed(s: string)
  {
    forall i :: 0 <= i < |s| ==> Allowed(s[i])
  }

  /** replaceAll("[^a-zA-Z0-9._-]", "_"): each character outside the class
      becomes one '_'; the others stay in place. */
  function Sanitize(s: string): (r: string)
    ensures |r| == |s|
    ensures forall i :: 0 <= i < |s| ==> r[i] == (if Allowed(s[i]) then s[i] else '_')
  {
    if s == [] then [] else [if Allowed(s[0]) then s[0] else '_'] + Sanitize(s[1..])
  }

  /** trim().isEmpty(): String.trim strips every character up to U+0020. */
  predicate IsBlank(s: string)
    ensures s == [] ==> IsBlank(s)
    ensures IsBlank(s) ==> forall i :: 0 <= i < |s| ==> !Allowed(s[i])
  {
    forall i :: 0 <= i < |s| ==> s[i] <= ' '
  }

  /** The name an upload is stored under before the time prefix: the sanitised
      original name, or "<tag>_<millis>.jpg" when that is missing or blank. */
  function SafeFileName(original: Option<string>, tag: string, millis: int): (r: string)
    ensures r != []
    ensures original.Some? && !IsBlank(original.value) ==> |r| == |original.value|
  {
    if original.Some? && !IsBlank(original.value) then Sanitize(original.value)
    else tag + "_" + ShowLong(millis) + ".jpg"
  }

  /** "<millis>_<safeName>": the on-disk name of an upload. */
  function StoredFileName(millis: int, safeName: string): (r: string)
    ensures |r| > |safeName| && r[|r| - |safeName|..] == safeName
    ensures r[|r| - |safeName| - 1] == '_'
  {
    ShowLong(millis) + "_" + safeName
  }

  /** getBaseUrl: the configured base URL when set, otherwise scheme://host with
      ":port" appended exactly for http on a port other than 80 and https on a
      port other than 443 (any other scheme never gets a port). */
  function BaseUrl(configured: string, scheme: string, host: string, port: int): (r: string)
    ensures configured != "" ==> r == configured
    ensures configured == "" ==> StartsWith(r, scheme + "://" + host)
  {
    if configured != "" then configured
    else
      var origin := scheme + "://" + host;
      if (scheme == "http" && port != 80) || (scheme == "https" && port != 443) then origin + ":" + ShowLong(port)
      else origin
  }

  /** The URL an upload of one collection ("category" or "product") is served under. */
  function ImageUrl(baseUrl: string, collection: string, storedName: string): (r: string)
    ensures |r| == |baseUrl| + |collection| + |storedName| + 10
    ensures r[..|baseUrl|] == baseUrl
  {
    baseUrl + "/uploads/" + collection + "/" + storedName
  }

  /** The local file an upload of one collection is written to. */
  function UploadPath(userDir: string, sep: char, collection: string, storedName: string): (r: string)
    ensures |r| == |userDir| + |collection| + |storedName| + 10
    ensures r[..|userDir|] == userDir && r[|userDir|] == sep
  {
    userDir + [sep] + "uploads" + [sep] + collection + [sep] + storedName
  }

  /** updateImageUrl and the loop of category list: prefix the base URL onto
      "/uploads/..." paths; every other path, the empty one included, is kept. */
  function WithBaseUrl(imagePath: string, baseUrl: string): (r: string)
    ensures |r| >= |imagePath|
    ensures !StartsWith(imagePath, "/uploads/") ==> r == imagePath
  {
    if imagePath != "" && StartsWith(imagePath, "/uploads/") then baseUrl + imagePath else imagePath
  }

  /** Sanitising is idempotent and keeps allowed names unchanged. */
  lemma SanitizeKeepsAllowed(s: string)
    ensures AllAllowed(Sanitize(s))
    ensures AllAllowed(s) <==> Sanitize(s) == s
    ensures Sanitize(Sanitize(s)) == Sanitize(s)
  {
    var r := Sanitize(s);
    if !AllAllowed(s) {
      var i :| 0 <= i < |s| && !Allowed(s[i]);
      assert r[i] != s[i];
    }
    assert forall i :: 0 <= i < |r| ==> Sanitize(r)[i] == r[i];
  }

  lemma ShowLongAllowed(i: int)
    ensures AllAllowed(ShowLong(i))
  {
    var d := Digits(if i < 0 then -i else i);
    assert AllDigits(d);
    if i < 0 {
      assert ShowLong(i) == "-" + d;
      assert forall k :: 1 <= k < |ShowLong(i)| ==> ShowLong(i)[k] == d[k - 1];
    }
  }

  /** The two upload collections are names of allowed characters. */
  lemma CollectionsAllowed()
    ensures AllAllowed("category") && AllAllowed("product")
  {
    forall s, i | s in ["category", "product"] && 0 <= i < |s|
      ensures Allowed(s[i])
    {
      assert 'a' <= s[i] <= 'z';
    }
  }

  /** Every stored upload name is non-empty and made of allowed characters only
      (so it holds no '/'), whatever the client sent. */
  lemma StoredFileNameAllowed(original: Option<string>, tag: string, nameMillis: int, prefixMillis: int)
    requires AllAllowed(tag)
    ensures var n := StoredFileName(prefixMillis, SafeFileName(original, tag, nameMillis));
      n != "" && AllAllowed(n)
  {
    ShowLongAllowed(nameMillis);
    ShowLongAllowed(prefixMillis);
    var safe := SafeFileName(original, tag, nameMillis);
    if original.Some? && !IsBlank(original.value) {
      SanitizeKeepsAllowed(original.value);
    } else {
      assert safe == tag + "_" + ShowLong(nameMillis) + ".jpg";
      assert AllAllowed(safe) by {
        var a, b := tag + "_", ShowLong(nameMillis);
        assert forall k :: 0 <= k < |a| ==> a[k] == (if k < |tag| then tag[k] else '_');
        assert AllAllowed(a + b);
      }
    }
    var p := ShowLong(prefixMillis) + "_";
    assert forall k :: 0 <= k < |p| ==> Allowed(p[k]);
  }

  /** A configured base URL wins over the request. Otherwise the port is left
      out exactly for the default ports of http and https (sections 2.7.1 and
      2.7.2 of RFC 7230) and for every other scheme, and when it is written it
      reads back as the same number. */
  lemma BaseUrlPort(configured: string, scheme: string, host: string, port: int)
    requires InLong(port)
    ensures configured != "" ==> BaseUrl(configured, scheme, host, port) == configured
    ensures var u := BaseUrl("", scheme, host, port);
      var origin := scheme + "://" + host;
      && StartsWith(u, origin)
      && (u == origin <==> !((scheme == "http" && port != 80) || (scheme == "https" && port != 443)))
      && (u != origin ==> u[|origin|] == ':' && ParseLong(u[|origin| + 1..]) == Some(port))
  {
    var u := BaseUrl("", scheme, host, port);
    var origin := scheme + "://" + host;
    assert u[..|origin|] == origin;
    if u != origin {
      assert u == origin + ":" + ShowLong(port);
      assert u[|origin| + 1..] == ShowLong(port);
      ParseShowLong(port);
    }
  }

  /** updateImageUrl touches only root-relative upload paths: the result always
      ends with the original path, and absolute URLs, empty paths and local paths
      come back unchanged. */
  lemma WithBaseUrlOnlyUploads(imagePath: string, baseUrl: string)
    ensures var r := WithBaseUrl(imagePath, baseUrl);
      && |r| >= |imagePath| && r[|r| - |imagePath|..] == imagePath
      && (r != imagePath <==> StartsWith(imagePath, "/uploads/") && baseUrl != "")
      && (StartsWith(imagePath, "http") ==> r == imagePath)
  {
    var r := WithBaseUrl(imagePath, baseUrl);
    if StartsWith(imagePath, "http") {
      assert imagePath[0] == 'h';
    }
    if StartsWith(imagePath, "/uploads/") && baseUrl != "" {
      assert |r| > |imagePath|;
    }
  }
}
