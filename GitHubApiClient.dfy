/** GitHubApiClient: which download URLs the root listing and the recursive
    walk return, and what a content fetch returns.

    The HTTP service is a value. A listing response is a Listing; each of its
    entries carries, besides the listed item, the Listing the service answers
    when that item's path is requested in turn. The repository is thus a finite
    tree and the recursion follows its structure. */
module GitHubApiClient {
  import opened Wrappers
  import opened Text
  import opened Entities

  /** The response to a listing request: IsSuccessful, ErrorMessage and the
      deserialised Data, which may be null. */
  datatype Listing = Listing(isSuccessful: bool, errorMessage: NullableString, data: ListData)

  /** Data: a null list, or the listed items in the order the service sends them. */
  datatype ListData = Null | Items(entries: seq<Entry>)

  /** A listed item, with the response the service gives for its path. */
  datatype Entry = Entry(file: GitHubFile, subListing: Listing)

  /** The response to a raw content request. */
  datatype ContentResponse = ContentResponse(isSuccessful: bool, content: NullableString)

  /** The remote repository: the listing of its root, and the response to a
      request for any (possibly null) URL. */
  datatype Server = Server(root: Listing, raw: NullableString -> ContentResponse)

  const RootPrefix := "Error in GetFileNamesAsync: "
  const RootListingFailed := "Error getting file list from GitHub."
  /** The message of the ArgumentNullException LINQ throws when Data is null. */
  const NullSource := "Value cannot be null. (Parameter 'source')"
  const RecursivePrefix := "Error in GetFileNamesAsyncRecursively: "
  const ContentsFailed := "Error getting contents from GitHub: "
  const ContentPrefix := "Error in GetFileContentAsync: "

  /** The name test both listings apply: not null or empty, and ending in
      ".js" or ".ts" under ordinal case-insensitive comparison. */
  function IsScriptName(t: CharTables, name: NullableString): (b: bool)
    ensures b ==> name.Some? && |name.value| >= 3
  {
    !IsNullOrEmpty(name) &&
    (EndsWithIgnoreCase(t, name.value, ".js") || EndsWithIgnoreCase(t, name.value, ".ts"))
  }

  /** The name test accepts exactly the names whose last three characters
      are '.', then 'j' or 't', then 's', each compared after upper-casing. */
  lemma ScriptNameExactly(t: CharTables, name: NullableString)
    ensures IsScriptName(t, name) <==>
      && name.Some?
      && |name.value| >= 3
      && var n, up := name.value, t.upperInvariant;
      && up(n[|n| - 3]) == up('.')
      && (up(n[|n| - 2]) == up('j') || up(n[|n| - 2]) == up('t'))
      && up(n[|n| - 1]) == up('s')
  {
    if name.Some? && |name.value| >= 3 {
      var n := name.value;
      var up := t.upperInvariant;
      if up(n[|n| - 3]) == up('.') && up(n[|n| - 2]) == up('j') && up(n[|n| - 1]) == up('s') {
        assert EndsWithIgnoreCase(t, n, ".js") by {
          assert n[|n| - 3 + 0] == n[|n| - 3] && n[|n| - 3 + 1] == n[|n| - 2] && n[|n| - 3 + 2] == n[|n| - 1];
        }
      }
      if up(n[|n| - 3]) == up('.') && up(n[|n| - 2]) == up('t') && up(n[|n| - 1]) == up('s') {
        assert EndsWithIgnoreCase(t, n, ".ts") by {
          assert n[|n| - 3 + 0] == n[|n| - 3] && n[|n| - 3 + 1] == n[|n| - 2] && n[|n| - 3 + 2] == n[|n| - 1];
        }
      }
      if EndsWithIgnoreCase(t, n, ".js") {
        assert up(n[|n| - 3 + 0]) == up(".js"[0]) && up(n[|n| - 3 + 1]) == up(".js"[1]) && up(n[|n| - 3 + 2]) == up(".js"[2]);
      }
      if EndsWithIgnoreCase(t, n, ".ts") {
        assert up(n[|n| - 3 + 0]) == up(".ts"[0]) && up(n[|n| - 3 + 1]) == up(".ts"[1]) && up(n[|n| - 3 + 2]) == up(".ts"[2]);
      }
    }
  }

  // ---------------------------------------------------------------------
  // GetFileNamesAsync: the root listing, filtered by name only.

  /** The LINQ query over the root listing: the Download_Url of every entry
      whose name passes the test, in listing order. */
  function SelectScriptUrls(t: CharTables, entries: seq<Entry>): (r: seq<NullableString>)
    ensures |r| <= |entries|
    ensures (forall i :: 0 <= i < |entries| ==> !IsScriptName(t, entries[i].file.name)) ==> r == []
  {
    if entries == [] then []
    else
      (if IsScriptName(t, entries[0].file.name) then [entries[0].file.downloadUrl] else [])
      + SelectScriptUrls(t, entries[1..])
  }

  /** GetFileNamesAsync on the root listing. An unsuccessful response and a
      successful one without data both end in an exception. */
  function GetFileNames(t: CharTables, root: Listing): (r: Result<seq<NullableString>>)
    ensures r.Success? <==> root.isSuccessful && root.data.Items?
    ensures !root.isSuccessful ==> r == Failure(RootPrefix + RootListingFailed)
    ensures root.isSuccessful && root.data.Null? ==> r == Failure(RootPrefix + NullSource)
  {
    if !root.isSuccessful then Failure(RootPrefix + RootListingFailed)
    else if root.data.Null? then Failure(RootPrefix + NullSource)
    else Success(SelectScriptUrls(t, root.data.entries))
  }

  /** The query keeps listing order: filtering a concatenation of listings is
      the concatenation of the filtered parts. */
  lemma {:induction false} SelectScriptUrlsAppend(t: CharTables, a: seq<Entry>, b: seq<Entry>)
    ensures SelectScriptUrls(t, a + b) == SelectScriptUrls(t, a) + SelectScriptUrls(t, b)
  {
    if a != [] {
      assert (a + b)[1..] == a[1..] + b;
      assert (a + b)[0] == a[0];
      SelectScriptUrlsAppend(t, a[1..], b);
      var head := if IsScriptName(t, a[0].file.name) then [a[0].file.downloadUrl] else [];
      assert head + (SelectScriptUrls(t, a[1..]) + SelectScriptUrls(t, b))
          == (head + SelectScriptUrls(t, a[1..])) + SelectScriptUrls(t, b);
    } else {
      assert a + b == b;
    }
  }

  /** A URL is returned exactly when some entry with an accepted name carries
      it; neither the entry's type nor the URL itself is checked, and the
      result is no longer than the listing. */
  lemma {:induction false} SelectScriptUrlsMembers(t: CharTables, entries: seq<Entry>)
    ensures |SelectScriptUrls(t, entries)| <= |entries|
    ensures forall u :: u in SelectScriptUrls(t, entries) <==>
      exists i :: 0 <= i < |entries| && IsScriptName(t, entries[i].file.name) && entries[i].file.downloadUrl == u
  {
    if entries != [] {
      SelectScriptUrlsMembers(t, entries[1..]);
      forall u | (exists i :: 0 <= i < |entries| && IsScriptName(t, entries[i].file.name) && entries[i].file.downloadUrl == u)
        ensures u in SelectScriptUrls(t, entries)
      {
        var i :| 0 <= i < |entries| && IsScriptName(t, entries[i].file.name) && entries[i].file.downloadUrl == u;
        if i > 0 {
          assert entries[1..][i - 1] == entries[i];
        }
      }
      forall u | u in SelectScriptUrls(t, entries)
        ensures exists i :: 0 <= i < |entries| && IsScriptName(t, entries[i].file.name) && entries[i].file.downloadUrl == u
      {
        if u in SelectScriptUrls(t, entries[1..]) {
          var i :| 0 <= i < |entries[1..]| && IsScriptName(t, entries[1..][i].file.name) && entries[1..][i].file.downloadUrl == u;
          assert entries[i + 1] == entries[1..][i];
        }
      }
    }
  }

  // ---------------------------------------------------------------------
  // GetFileNamesAsyncRecursively: the depth-first walk.

  /** A "file" entry whose name passes the test. */
  predicate IsScriptFile(t: CharTables, f: GitHubFile) {
    f.fileType == Some("file") && IsScriptName(t, f.name)
  }

  /** A script file that also has a download URL: the walk returns that URL. */
  predicate Contributes(t: CharTables, f: GitHubFile) {
    IsScriptFile(t, f) && !IsNullOrEmpty(f.downloadUrl)
  }

  /** A "dir" entry with a path: the walk lists it in turn. */
  predicate Descends(f: GitHubFile) {
    f.fileType == Some("dir") && !IsNullOrEmpty(f.path)
  }

  /** The walk of one listing: what GetFileNamesAsyncRecursively returns or
      the message of the exception it throws. */
  function Walk(t: CharTables, l: Listing): (r: Result<seq<NullableString>>)
    ensures r.Success? ==> forall i :: 0 <= i < |r.value| ==> r.value[i].Some? && r.value[i].value != ""
    ensures r.Failure? ==> |RecursivePrefix| <= |r.error| && r.error[..|RecursivePrefix|] == RecursivePrefix
    decreases l, 1
  {
    if !l.isSuccessful then Failure(RecursivePrefix + ContentsFailed + Show(l.errorMessage))
    else if l.data.Null? || |l.data.entries| == 0 then Success([])
    else
      match Scan(t, l, |l.data.entries|)
      case Success(urls) => Success(urls)
      case Failure(e) => Failure(RecursivePrefix + e)
  }

  /** The state of the foreach loop of the walk after the first k entries of
      the listing: the URLs collected so far, or the exception thrown. */
  function Scan(t: CharTables, l: Listing, k: nat): (r: Result<seq<NullableString>>)
    requires l.data.Items? && k <= |l.data.entries|
    ensures r.Success? ==> forall i :: 0 <= i < |r.value| ==> r.value[i].Some? && r.value[i].value != ""
    ensures r.Failure? ==> |RecursivePrefix| <= |r.error| && r.error[..|RecursivePrefix|] == RecursivePrefix
    decreases l, 0, k
  {
    if k == 0 then Success([])
    else
      match Scan(t, l, k - 1)
      case Failure(e) => Failure(e)
      case Success(urls) =>
        var item := l.data.entries[k - 1];
        assert item in l.data.entries;
        if IsScriptFile(t, item.file) then
          if !IsNullOrEmpty(item.file.downloadUrl) then Success(urls + [item.file.downloadUrl])
          else Success(urls)
        else if item.file.fileType == Some("dir") then
          if !IsNullOrEmpty(item.file.path) then
            match Walk(t, item.subListing)
            case Failure(e) => Failure(e)
            case Success(sub) => Success(urls + sub)
          else Success(urls)
        else Success(urls)
  }

  /** GetFileNamesAsyncRecursively: lists l, collects the URLs of its script
      files and the results of listing its directories, in listing order. */
  method GetFileNamesRecursively(t: CharTables, l: Listing) returns (r: Result<seq<NullableString>>)
    ensures r == Walk(t, l)
    decreases l
  {
    if !l.isSuccessful {
      return Failure(RecursivePrefix + ContentsFailed + Show(l.errorMessage));
    }
    if l.data.Null? || |l.data.entries| == 0 {
      return Success([]);
    }
    var items := l.data.entries;
    var fileNames: seq<NullableString> := [];
    for i := 0 to |items|
      invariant Scan(t, l, i) == Success(fileNames)
    {
      var item := items[i];
      assert item in l.data.entries;
      if item.file.fileType == Some("file") && IsScriptName(t, item.file.name) {
        if !IsNullOrEmpty(item.file.downloadUrl) {
          fileNames := fileNames + [item.file.downloadUrl];
        }
      } else if item.file.fileType == Some("dir") {
        if !IsNullOrEmpty(item.file.path) {
          var subDirectoryFiles := GetFileNamesRecursively(t, item.subListing);
          if subDirectoryFiles.Failure? {
            ScanFailurePersists(t, l, i + 1, |items|);
            return Failure(RecursivePrefix + subDirectoryFiles.error);
          }
          fileNames := fileNames + subDirectoryFiles.value;
        }
      }
    }
    return Success(fileNames);
  }

  /** Once the loop has thrown, the rest of the listing is not looked at. */
  lemma {:induction false} ScanFailurePersists(t: CharTables, l: Listing, k: nat, j: nat)
    requires l.data.Items? && k <= j <= |l.data.entries|
    requires Scan(t, l, k).Failure?
    ensures Scan(t, l, j) == Scan(t, l, k)
    decreases j
  {
    if j > k {
      ScanFailurePersists(t, l, k, j - 1);
    }
  }

  // A reference description of the walk: the entries it visits, depth first,
  // and which listings it requests, kept apart from what it returns.

  /** Every entry of every listing the walk requests, in the order met:
      each entry is followed by the entries below it. */
  function Reached(l: Listing): seq<GitHubFile>
    decreases l, 1
  {
    if !l.isSuccessful || l.data.Null? then [] else ReachedScan(l, |l.data.entries|)
  }

  function ReachedScan(l: Listing, k: nat): seq<GitHubFile>
    requires l.data.Items? && k <= |l.data.entries|
    decreases l, 0, k
  {
    if k == 0 then []
    else
      var item := l.data.entries[k - 1];
      assert item in l.data.entries;
      ReachedScan(l, k - 1) + [item.file] + (if Descends(item.file) then Reached(item.subListing) else [])
  }

  /** Every listing the walk requests is answered successfully. */
  predicate AllListed(l: Listing)
    decreases l, 1
  {
    l.isSuccessful && (l.data.Items? ==> AllListedScan(l, |l.data.entries|))
  }

  predicate AllListedScan(l: Listing, k: nat)
    requires l.data.Items? && k <= |l.data.entries|
    decreases l, 0, k
  {
    k == 0 ||
    (AllListedScan(l, k - 1) &&
     var item := l.data.entries[k - 1];
     assert item in l.data.entries;
     (Descends(item.file) ==> AllListed(item.subListing)))
  }

  /** The download URLs of the entries that contribute, in order. */
  function ContributedUrls(t: CharTables, fs: seq<GitHubFile>): seq<NullableString> {
    if fs == [] then []
    else
      var f := fs[|fs| - 1];
      ContributedUrls(t, fs[..|fs| - 1]) + (if Contributes(t, f) then [f.downloadUrl] else [])
  }

  lemma {:induction false} ContributedUrlsAppend(t: CharTables, a: seq<GitHubFile>, b: seq<GitHubFile>)
    ensures ContributedUrls(t, a + b) == ContributedUrls(t, a) + ContributedUrls(t, b)
    decreases |b|
  {
    if b != [] {
      assert (a + b)[..|a + b| - 1] == a + b[..|b| - 1];
      ContributedUrlsAppend(t, a, b[..|b| - 1]);
    } else {
      assert a + b == a;
    }
  }

  lemma ScanStep(t: CharTables, l: Listing, k: nat)
    requires l.data.Items? && 0 < k <= |l.data.entries|
    ensures
      var item := l.data.entries[k - 1];
      ContributedUrls(t, ReachedScan(l, k)) ==
        ContributedUrls(t, ReachedScan(l, k - 1))
        + (if Contributes(t, item.file) then [item.file.downloadUrl] else [])
        + (if Descends(item.file) then ContributedUrls(t, Reached(item.subListing)) else [])
  {
    var item := l.data.entries[k - 1];
    var below := if Descends(item.file) then Reached(item.subListing) else [];
    ContributedUrlsAppend(t, ReachedScan(l, k - 1) + [item.file], below);
    ContributedUrlsAppend(t, ReachedScan(l, k - 1), [item.file]);
    assert [item.file][..0] == [];
  }

  /** The walk succeeds exactly when every listing it requests succeeds, and
      then returns the download URLs of the contributing entries it visits,
      in depth-first order: a directory's results stand at its position. */
  lemma {:induction false} WalkIsDepthFirst(t: CharTables, l: Listing)
    ensures Walk(t, l).Success? <==> AllListed(l)
    ensures AllListed(l) ==> Walk(t, l).value == ContributedUrls(t, Reached(l))
    decreases l, 1
  {
    if l.isSuccessful && l.data.Items? {
      ScanIsDepthFirst(t, l, |l.data.entries|);
    }
  }

  lemma {:induction false} ScanIsDepthFirst(t: CharTables, l: Listing, k: nat)
    requires l.data.Items? && k <= |l.data.entries|
    ensures Scan(t, l, k).Success? <==> AllListedScan(l, k)
    ensures AllListedScan(l, k) ==> Scan(t, l, k).value == ContributedUrls(t, ReachedScan(l, k))
    decreases l, 0, k
  {
    if k > 0 {
      var item := l.data.entries[k - 1];
      assert item in l.data.entries;
      ScanIsDepthFirst(t, l, k - 1);
      ScanStep(t, l, k);
      if Descends(item.file) {
        WalkIsDepthFirst(t, item.subListing);
      }
    }
  }

  /** The positions of fs holding an entry that contributes. */
  ghost function ContributingPositions(t: CharTables, fs: seq<GitHubFile>): set<nat> {
    set i: nat | i < |fs| && Contributes(t, fs[i])
  }

  lemma {:induction false} ContributedUrlsLength(t: CharTables, fs: seq<GitHubFile>)
    ensures |ContributedUrls(t, fs)| == |ContributingPositions(t, fs)|
  {
    if fs == [] {
      assert ContributingPositions(t, fs) == {};
    } else {
      var p := fs[..|fs| - 1];
      ContributedUrlsLength(t, p);
      assert forall i :: 0 <= i < |p| ==> fs[i] == p[i];
      var last := if Contributes(t, fs[|p|]) then {|p|} else {};
      assert ContributingPositions(t, fs) == ContributingPositions(t, p) + last;
      assert |p| !in ContributingPositions(t, p);
    }
  }

  /** The walk returns one URL per contributing entry it visits: nothing is
      removed as a duplicate. */
  lemma WalkLength(t: CharTables, l: Listing)
    requires Walk(t, l).Success?
    ensures |Walk(t, l).value| == |ContributingPositions(t, Reached(l))|
  {
    WalkIsDepthFirst(t, l);
    ContributedUrlsLength(t, Reached(l));
  }

  // ---------------------------------------------------------------------
  // GetFileContentAsync.

  /** GetFileContentAsync: the content of a successful response, "" when it
      is null; otherwise an exception naming the URL. */
  function GetFileContent(server: Server, fileUrl: NullableString): (r: Result<string>)
    ensures r.Success? <==> server.raw(fileUrl).isSuccessful
    ensures r.Success? && server.raw(fileUrl).content.None? ==> r.value == ""
    ensures r.Success? && server.raw(fileUrl).content.Some? ==> r.value == server.raw(fileUrl).content.value
    ensures r.Failure? ==>
      r.error == ContentPrefix + "File " + Show(fileUrl) + " not found" + " " + Show(fileUrl)
  {
    var response := server.raw(fileUrl);
    if response.isSuccessful then Success(response.content.GetOr(""))
    else Failure(ContentPrefix + "File " + Show(fileUrl) + " not found" + " " + Show(fileUrl))
  }
}
