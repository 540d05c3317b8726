/**
  The poster cache: picking a file extension from a response's
  `Content-Type` or from the image URL, and `download_poster`, which
  returns a cached `{id}{ext}` file when one exists and otherwise tries the
  candidate URLs in order and writes the first usable image. The poster
  directory is the set of file names in it; the network is a function from
  URL to response.
*/
module Poster {
  import opened Common
  import opened PyStr

  /** The three extensions a poster is written with. */
  const ImageExts: set<string> := {".jpg", ".png", ".webp"}

  /** The media type each written extension stands for. */
  function MimeType(ext: string): string
    requires ext in ImageExts
  {
    if ext == ".jpg" then "image/jpeg" else if ext == ".png" then "image/png" else "image/webp"
  }

  /** The media type of a `Content-Type` header: before the first `;`, stripped, lower-cased. */
  function MediaType(contentType: string): string {
    Lower(Trim(Before(contentType, ';')))
  }

  /** `poster_ext_from_content_type`. */
  function ExtFromContentType(contentType: string): Option<string> {
    if contentType == "" then None
    else
      var t := MediaType(contentType);
      if t == "image/jpeg" then Some(".jpg")
      else if t == "image/png" then Some(".png")
      else if t == "image/webp" then Some(".webp")
      else None
  }

  /** The header names an extension exactly when its media type is that
      extension's media type. */
  lemma ExtFromContentTypeSpec(contentType: string, ext: string)
    ensures ExtFromContentType(contentType).Some? ==> ExtFromContentType(contentType).value in ImageExts
    ensures ext in ImageExts ==>
      (ExtFromContentType(contentType) == Some(ext) <==> MediaType(contentType) == MimeType(ext))
  {
    if contentType == "" {
      assert Before(contentType, ';') == "";
      assert Trim("") == "";
    }
  }

  /** Parameters after `;` are ignored. */
  lemma ContentTypeParameters(contentType: string, params: string)
    requires contentType != "" && ';' !in contentType
    ensures ExtFromContentType(contentType + ";" + params) == ExtFromContentType(contentType)
  {
    var s := contentType + ";" + params;
    assert s[..|contentType|] == contentType;
    BeforeFirst(s, ';', |contentType|);
    BeforeAbsent(contentType, ';');
  }

  /** Each media type maps back to its extension. */
  lemma MimeTypeRoundTrip(ext: string)
    requires ext in ImageExts
    ensures ExtFromContentType(MimeType(ext)) == Some(ext)
  {
    var m := MimeType(ext);
    BeforeAbsent(m, ';');
    TrimOfTrimmed(m);
    LowerNoCapitals(m);
  }

  /** The extension `os.path.splitext` finds: from the last `.` of the last
      path component, unless that component is only dots up to there. */
  function SplitExt(path: string): string {
    var sep := LastIndexOf(path, '/');
    var dot := LastIndexOf(path, '.');
    if dot > sep && !(forall k | sep + 1 <= k < dot :: path[k] == '.') then path[dot..] else ""
  }

  /** `poster_ext_from_url`. */
  function ExtFromUrl(url: string): (ext: string)
    ensures ext in ImageExts
  {
    if url == "" then ".jpg"
    else
      var e := Lower(SplitExt(Before(url, '?')));
      if e == ".jpeg" then ".jpg"
      else if e in ImageExts then e
      else ".jpg"
  }

  /** The query string does not matter. */
  lemma UrlQueryIgnored(url: string, query: string)
    requires '?' !in url
    ensures ExtFromUrl(url + "?" + query) == ExtFromUrl(url)
  {
    var s := url + "?" + query;
    assert s[..|url|] == url;
    BeforeFirst(s, '?', |url|);
    BeforeAbsent(url, '?');
    if url == "" {
      assert SplitExt("") == "";
      assert Lower("") == "";
    }
  }

  /** `splitext` of a file name with a non-dot last character followed by
      `.xyz` gives `.xyz`. */
  lemma SplitExtOfFile(path: string, ext: string)
    requires |ext| > 0 && ext[0] == '.' && '.' !in ext[1..] && '/' !in ext
    requires |path| > 0 && path[|path| - 1] != '.' && path[|path| - 1] != '/'
    ensures SplitExt(path + ext) == ext
  {
    var s := path + ext;
    assert s[|path|] == '.';
    forall k | |path| < k < |s| ensures s[k] != '.' {
      assert s[k] == ext[1..][k - |path| - 1];
    }
    LastIndexOfIs(s, '.', |path|);
    var sep := LastIndexOf(s, '/');
    assert sep < |path| - 1 by {
      assert s[|path| - 1] == path[|path| - 1];
    }
    assert s[|path| - 1] != '.';
    assert s[|path|..] == ext;
  }

  /** The URL of a file `path + ext` is judged by `ext` alone. */
  lemma ExtFromUrlBySuffix(path: string, ext: string)
    requires |ext| > 0 && ext[0] == '.' && '.' !in ext[1..] && '/' !in ext && '?' !in ext
    requires |path| > 0 && path[|path| - 1] != '.' && path[|path| - 1] != '/'
    requires '?' !in path
    ensures ExtFromUrl(path + ext) ==
      var e := Lower(ext);
      if e == ".jpeg" then ".jpg" else if e in ImageExts then e else ".jpg"
  {
    var s := path + ext;
    assert '?' !in s by {
      forall k | 0 <= k < |s| ensures s[k] != '?' {
        if k < |path| { assert s[k] == path[k]; } else { assert s[k] == ext[k - |path|]; }
      }
    }
    BeforeAbsent(s, '?');
    SplitExtOfFile(path, ext);
  }

  /** A file name ending in a known image extension keeps it, `.jpeg` becoming `.jpg`. */
  lemma ExtFromUrlOfFile(path: string, ext: string)
    requires ext in {".jpg", ".jpeg", ".png", ".webp"}
    requires |path| > 0 && path[|path| - 1] != '.' && path[|path| - 1] != '/'
    requires '?' !in path
    ensures ExtFromUrl(path + ext) == if ext == ".jpeg" then ".jpg" else ext
  {
    ExtFromUrlBySuffix(path, ext);
    LowerNoCapitals(ext);
  }

  // ---------------------------------------------------------------------
  // download_poster
  // ---------------------------------------------------------------------

  /** An image response: status, whether the body is non-empty, and the `Content-Type` header. */
  datatype ImageResponse = ImageResponse(status: int, hasBody: bool, contentType: string)

  /** What a call leaves behind: the returned path (a file name in the
      poster directory), the directory afterwards and the URLs requested. */
  datatype PosterOutcome = PosterOutcome(path: Option<string>, files: set<string>, requested: seq<string>)

  /** The extensions a cached poster may have, in the order they are looked for. */
  const CacheExts: seq<string> := [".jpg", ".jpeg", ".png", ".webp"]

  /** The first `{id}{ext}` already in the directory. */
  function Cached(id: string, exts: seq<string>, files: set<string>): (r: Option<string>)
    ensures r.Some? ==> r.value in files
    ensures r.Some? ==> exists e <- exts :: r.value == id + e
    ensures r.None? <==> forall e <- exts :: id + e !in files
  {
    if |exts| == 0 then None
    else if id + exts[0] in files then Some(id + exts[0])
    else
      var r := Cached(id, exts[1..], files);
      assert forall e <- exts[1..] :: e in exts;
      assert forall e <- exts :: e == exts[0] || e in exts[1..];
      r
  }

  /** The URLs tried: for a `.webp` poster the `.jpg` sibling first. */
  function Candidates(url: string): seq<string> {
    if EndsWith(url, ".webp") then [url[..|url| - 5] + ".jpg", url] else [url]
  }

  lemma CandidatesOfWebp(stem: string)
    ensures Candidates(stem + ".webp") == [stem + ".jpg", stem + ".webp"]
  {
    var u := stem + ".webp";
    assert u[|u| - 5..] == ".webp";
    assert u[..|u| - 5] == stem;
  }

  /** A response worth writing: status 200 and a body. */
  predicate Usable(r: Call<ImageResponse>) {
    r.Returned? && r.value.status == 200 && r.value.hasBody
  }

  /** The extension a usable response is written with: the header's, else the URL's. */
  function WrittenExt(url: string, r: ImageResponse): string {
    match ExtFromContentType(r.contentType)
    case Some(e) => e
    case None => ExtFromUrl(url)
  }

  /** Trying the candidates in order until one is usable. */
  function TryCandidates(cands: seq<string>, id: string, files: set<string>,
                         fetch: string -> Call<ImageResponse>): PosterOutcome
  {
    if |cands| == 0 then PosterOutcome(None, files, [])
    else if Usable(fetch(cands[0])) then
      var name := id + WrittenExt(cands[0], fetch(cands[0]).value);
      PosterOutcome(Some(name), files + {name}, [cands[0]])
    else
      var o := TryCandidates(cands[1..], id, files, fetch);
      o.(requested := [cands[0]] + o.requested)
  }

  /** The first usable candidate wins; every candidate before it was requested and failed. */
  lemma {:induction false} TryCandidatesFirstUsable(cands: seq<string>, i: nat, id: string,
                                                    files: set<string>, fetch: string -> Call<ImageResponse>)
    requires i < |cands| && Usable(fetch(cands[i]))
    requires forall j | 0 <= j < i :: !Usable(fetch(cands[j]))
    ensures TryCandidates(cands, id, files, fetch) ==
      var name := id + WrittenExt(cands[i], fetch(cands[i]).value);
      PosterOutcome(Some(name), files + {name}, cands[..i + 1])
  {
    if i > 0 {
      assert !Usable(fetch(cands[0]));
      assert cands[1..][i - 1] == cands[i];
      assert cands[1..][..i] == cands[..i + 1][1..];
      TryCandidatesFirstUsable(cands[1..], i - 1, id, files, fetch);
    }
  }

  /** When no candidate is usable, all were requested, nothing is written and there is no path. */
  lemma {:induction false} TryCandidatesNone(cands: seq<string>, id: string,
                                             files: set<string>, fetch: string -> Call<ImageResponse>)
    requires forall j | 0 <= j < |cands| :: !Usable(fetch(cands[j]))
    ensures TryCandidates(cands, id, files, fetch) == PosterOutcome(None, files, cands)
  {
    if |cands| > 0 {
      TryCandidatesNone(cands[1..], id, files, fetch);
      assert [cands[0]] + cands[1..] == cands;
    }
  }

  /** `download_poster(url, id)`. */
  function Download(url: string, id: string, files: set<string>,
                    fetch: string -> Call<ImageResponse>): PosterOutcome
  {
    if url == "" || id == "" then PosterOutcome(None, files, [])
    else
      match Cached(id, CacheExts, files)
      case Some(name) => PosterOutcome(Some(name), files, [])
      case None => TryCandidates(Candidates(url), id, files, fetch)
  }

  /** The directory only ever gains the returned file, and a returned file is
      `{id}` with one of the four extensions. */
  lemma {:induction false} DownloadSpec(url: string, id: string, files: set<string>,
                                        fetch: string -> Call<ImageResponse>)
    ensures var o := Download(url, id, files, fetch);
      (o.path.None? ==> o.files == files)
      && (o.path.Some? ==> o.path.value in o.files && o.files == files + {o.path.value})
      && (o.path.Some? ==> exists e <- CacheExts :: o.path.value == id + e)
  {
    if url != "" && id != "" && Cached(id, CacheExts, files).None? {
      TryCandidatesShape(Candidates(url), id, files, fetch);
    }
  }

  lemma {:induction false} TryCandidatesShape(cands: seq<string>, id: string, files: set<string>,
                                              fetch: string -> Call<ImageResponse>)
    ensures var o := TryCandidates(cands, id, files, fetch);
      (o.path.None? ==> o.files == files)
      && (o.path.Some? ==> o.files == files + {o.path.value})
      && (o.path.Some? ==> exists e <- CacheExts :: o.path.value == id + e)
  {
    if |cands| > 0 {
      if Usable(fetch(cands[0])) {
        var e := WrittenExt(cands[0], fetch(cands[0]).value);
        ExtFromContentTypeSpec(fetch(cands[0]).value.contentType, e);
        assert e in CacheExts;
      } else {
        TryCandidatesShape(cands[1..], id, files, fetch);
      }
    }
  }

  /** With no URL or no id, or with a cached file, no request is made. */
  lemma DownloadWithoutRequest(url: string, id: string, files: set<string>,
                               fetch: string -> Call<ImageResponse>)
    requires url == "" || id == "" || exists e <- CacheExts :: id + e in files
    ensures Download(url, id, files, fetch).requested == []
    ensures Download(url, id, files, fetch).files == files
    ensures url != "" && id != "" ==> Download(url, id, files, fetch).path == Cached(id, CacheExts, files)
  {
  }

  /** Once a poster is stored, a second `download_poster` for the same id
      (from any URL, whatever the network answers) requests nothing, writes
      nothing and returns the same path. */
  lemma DownloadTwice(url: string, id: string, files: set<string>, fetch: string -> Call<ImageResponse>,
                      url2: string, fetch2: string -> Call<ImageResponse>)
    requires Download(url, id, files, fetch).path.Some?
    requires url2 != ""
    ensures var o := Download(url, id, files, fetch);
      var again := Download(url2, id, o.files, fetch2);
      again.requested == [] && again.files == o.files && again.path == o.path
  {
    var o := Download(url, id, files, fetch);
    DownloadSpec(url, id, files, fetch);
    var e :| e in CacheExts && o.path.value == id + e;
    DownloadWithoutRequest(url2, id, o.files, fetch2);
    if Cached(id, CacheExts, files).None? {
      var r := Cached(id, CacheExts, o.files);
      var e2 :| e2 in CacheExts && r.value == id + e2;
      assert r.value !in files;
    }
  }

  /** The `for ext in ...` probe of the poster directory. */
  method ProbeCache(id: string, files: set<string>) returns (r: Option<string>)
    ensures r == Cached(id, CacheExts, files)
  {
    for i := 0 to |CacheExts|
      invariant Cached(id, CacheExts, files) == Cached(id, CacheExts[i..], files)
    {
      assert CacheExts[i..][1..] == CacheExts[i + 1..];
      if id + CacheExts[i] in files {
        return Some(id + CacheExts[i]);
      }
    }
    return None;
  }

  /** The `for url in candidate_urls` loop. */
  method TryEach(cands: seq<string>, id: string, files: set<string>,
                 fetch: string -> Call<ImageResponse>) returns (o: PosterOutcome)
    ensures o == TryCandidates(cands, id, files, fetch)
  {
    var requested: seq<string> := [];
    for i := 0 to |cands|
      invariant requested == cands[..i]
      invariant forall j | 0 <= j < i :: !Usable(fetch(cands[j]))
    {
      var response := fetch(cands[i]);
      requested := requested + [cands[i]];
      if response.Returned? && response.value.status == 200 && response.value.hasBody {
        var ext := ExtFromContentType(response.value.contentType);
        var e := if ext.Some? then ext.value else ExtFromUrl(cands[i]);
        TryCandidatesFirstUsable(cands, i, id, files, fetch);
        return PosterOutcome(Some(id + e), files + {id + e}, requested);
      }
    }
    TryCandidatesNone(cands, id, files, fetch);
    assert cands[..|cands|] == cands;
    o := PosterOutcome(None, files, requested);
  }

  /** `download_poster`: the argument check, the cache probe, then the candidates. */
  method DownloadPoster(url: string, id: string, files: set<string>,
                        fetch: string -> Call<ImageResponse>) returns (o: PosterOutcome)
    ensures o == Download(url, id, files, fetch)
  {
    if url == "" || id == "" {
      return PosterOutcome(None, files, []);
    }
    var cached := ProbeCache(id, files);
    if cached.Some? {
      return PosterOutcome(cached, files, []);
    }
    o := TryEach(Candidates(url), id, files, fetch);
  }
}
