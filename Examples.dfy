/** The behaviour the repository's tests and documentation describe, stated
    for concrete inputs with the ASCII character tables. */
module Examples {
  import opened Wrappers
  import opened Text
  import opened Entities
  import opened CharacterCounterService
  import opened GitHubApiClient
  import opened GitHubRepository

  /** "test word": t twice, every other letter once, the space not at all. */
  lemma TestWordCounts()
    ensures LetterHistogram(Ascii, "test word") ==
      map['t' := 2, 'e' := 1, 's' := 1, 'w' := 1, 'o' := 1, 'r' := 1, 'd' := 1]
  {
    var w := "test word";
    FirstWordAndNextLettersCounts();
    assert w[..7] == "test wo";
    assert LetterHistogram(Ascii, w[..8]) == map['t' := 2, 'e' := 1, 's' := 1, 'w' := 1, 'o' := 1, 'r' := 1] by { assert w[..8][..7] == w[..7]; }
    assert w == w[..9];
  }

  lemma FirstWordCounts()
    ensures LetterHistogram(Ascii, "test") == map['t' := 2, 'e' := 1, 's' := 1]
  {
    var w := "test";
    assert w[..0] == "";
    assert LetterHistogram(Ascii, w[..1]) == map['t' := 1] by { assert w[..1][..0] == w[..0]; }
    assert LetterHistogram(Ascii, w[..2]) == map['t' := 1, 'e' := 1] by { assert w[..2][..1] == w[..1]; }
    assert LetterHistogram(Ascii, w[..3]) == map['t' := 1, 'e' := 1, 's' := 1] by { assert w[..3][..2] == w[..2]; }
    assert w == w[..4];
  }

  lemma FirstWordAndNextLetterCounts()
    ensures LetterHistogram(Ascii, "test w") == map['t' := 2, 'e' := 1, 's' := 1, 'w' := 1]
  {
    var w := "test w";
    FirstWordCounts();
    assert w[..4] == "test";
    assert LetterHistogram(Ascii, w[..5]) == map['t' := 2, 'e' := 1, 's' := 1] by { assert w[..5][..4] == w[..4]; }
    assert w == w[..6];
  }

  lemma FirstWordAndNextLettersCounts()
    ensures LetterHistogram(Ascii, "test wo") == map['t' := 2, 'e' := 1, 's' := 1, 'w' := 1, 'o' := 1]
  {
    var w := "test wo";
    FirstWordAndNextLetterCounts();
    assert w[..6] == "test w";
    assert w == w[..7];
  }

  /** Digits and punctuation only: nothing is counted. */
  lemma SymbolsOnlyCounts()
    ensures LetterHistogram(Ascii, "1234!@#$%^&*()") == map[]
  {
    NoLettersNoKeys(Ascii, "1234!@#$%^&*()");
  }

  /** Ten million 'a's are counted ten million times. */
  lemma LargeInputCounts()
    ensures LetterHistogram(Ascii, seq(10_000_000, _ => 'a')) == map['a' := 10_000_000]
  {
    RepeatedLetter(Ascii, 'a', 10_000_000);
  }

  /** Upper and lower case are counted together under the lower-case key. */
  lemma MixedCaseCounts()
    ensures LetterHistogram(Ascii, "AaBb") == map['a' := 2, 'b' := 2]
  {
    var w := "AaBb";
    assert w[..0] == "";
    assert LetterHistogram(Ascii, w[..1]) == map['a' := 1] by { assert w[..1][..0] == w[..0]; }
    assert LetterHistogram(Ascii, w[..2]) == map['a' := 2] by { assert w[..2][..1] == w[..1]; }
    assert LetterHistogram(Ascii, w[..3]) == map['a' := 2, 'b' := 1] by { assert w[..3][..2] == w[..2]; }
    assert w == w[..4];
  }

  lemma ScriptNames()
    ensures IsScriptName(Ascii, Some("A.JS"))
    ensures IsScriptName(Ascii, Some("x.d.ts"))
    ensures IsScriptName(Ascii, Some(".js"))
    ensures !IsScriptName(Ascii, Some("a.jsx"))
    ensures !IsScriptName(Ascii, Some("readme.md"))
    ensures !IsScriptName(Ascii, Some(""))
    ensures !IsScriptName(Ascii, None)
  {
    ScriptNameExactly(Ascii, Some("A.JS"));
    ScriptNameExactly(Ascii, Some("x.d.ts"));
    ScriptNameExactly(Ascii, Some(".js"));
    ScriptNameExactly(Ascii, Some("a.jsx"));
    ScriptNameExactly(Ascii, Some("readme.md"));
  }

  function FileEntry(name: string, url: string): Entry {
    Entry(GitHubFile(Some(name), Some(url), Some("file"), Some(name)), Listing(false, None, Null))
  }

  function DirEntry(name: string, contents: seq<Entry>): Entry {
    Entry(GitHubFile(Some(name), None, Some("dir"), Some(name)), Listing(true, None, Items(contents)))
  }

  /** The names the sample repository uses, classified by the name test. */
  lemma SampleNames()
    ensures IsScriptName(Ascii, Some("index.js")) && IsScriptName(Ascii, Some("util.ts"))
    ensures !IsScriptName(Ascii, Some("readme.md")) && !IsScriptName(Ascii, Some("lib"))
  {
    ScriptNameExactly(Ascii, Some("index.js"));
    ScriptNameExactly(Ascii, Some("util.ts"));
    ScriptNameExactly(Ascii, Some("readme.md"));
    ScriptNameExactly(Ascii, Some("lib"));
  }

  const IndexJs := FileEntry("index.js", "u/index.js")
  const Readme := FileEntry("readme.md", "u/readme.md")
  const UtilTs := FileEntry("util.ts", "u/lib/util.ts")
  const LibDir := DirEntry("lib", [UtilTs])

  /** A root with index.js, readme.md and a directory lib holding util.ts. */
  function SampleRoot(): Listing {
    Listing(true, None, Items([IndexJs, Readme, LibDir]))
  }

  /** The root listing returns index.js only and does not enter lib. */
  lemma RootListingOfSample()
    ensures GetFileNames(Ascii, SampleRoot()) == Success([Some("u/index.js")])
  {
    SampleNames();
    var es := SampleRoot().data.entries;
    assert es == [IndexJs] + ([Readme] + [LibDir]);
    SelectScriptUrlsAppend(Ascii, [IndexJs], [Readme] + [LibDir]);
    SelectScriptUrlsAppend(Ascii, [Readme], [LibDir]);
    assert [IndexJs][1..] == [] && [Readme][1..] == [] && [LibDir][1..] == [];
    assert SelectScriptUrls(Ascii, [IndexJs]) == [Some("u/index.js")] + [];
    assert SelectScriptUrls(Ascii, [Readme]) == [];
    assert SelectScriptUrls(Ascii, [LibDir]) == [];
    var v := SelectScriptUrls(Ascii, es);
    assert v == [Some("u/index.js")] by {
      assert |v| == 1 && v[0] == Some("u/index.js");
    }
  }

  /** Walking the lib directory on its own yields util.ts. */
  lemma LibListing()
    ensures Walk(Ascii, LibDir.subListing) == Success([Some("u/lib/util.ts")])
  {
    SampleNames();
    var lib := LibDir.subListing;
    assert |lib.data.entries| == 1 && lib.data.entries[0] == UtilTs;
    assert IsScriptFile(Ascii, UtilTs.file) && UtilTs.file.downloadUrl == Some("u/lib/util.ts");
    assert Scan(Ascii, lib, 0) == Success([]);
    assert Scan(Ascii, lib, 1) == Success([] + [Some("u/lib/util.ts")]);
    assert [] + [Some("u/lib/util.ts")] == [Some("u/lib/util.ts")];
    assert lib.isSuccessful && lib.data.Items?;
  }

  /** The recursive walk also returns util.ts, after index.js. */
  lemma RecursiveListingOfSample()
    ensures Walk(Ascii, SampleRoot()) == Success([Some("u/index.js"), Some("u/lib/util.ts")])
  {
    SampleNames();
    LibListing();
    var r := SampleRoot();
    assert |r.data.entries| == 3;
    assert r.data.entries[0] == IndexJs && r.data.entries[1] == Readme && r.data.entries[2] == LibDir;
    assert Scan(Ascii, r, 1).value == [] + [Some("u/index.js")];
    assert Scan(Ascii, r, 2).value == [Some("u/index.js")];
    var v := Scan(Ascii, r, 3).value;
    assert v == [Some("u/index.js")] + [Some("u/lib/util.ts")];
    assert v == [Some("u/index.js"), Some("u/lib/util.ts")] by {
      assert |v| == 2 && v[0] == Some("u/index.js") && v[1] == Some("u/lib/util.ts");
    }
  }

  /** The root listing keeps a null URL and a directory whose name passes
      the test; the walk drops both. */
  lemma RootListingChecksNameOnly()
    ensures
      var odd := Listing(true, None, Items([
        Entry(GitHubFile(Some("a.js"), None, Some("file"), Some("a.js")), Listing(false, None, Null)),
        Entry(GitHubFile(Some("b.ts"), Some("u/b.ts"), Some("dir"), Some("")), Listing(false, None, Null))]));
      && GetFileNames(Ascii, odd) == Success([None, Some("u/b.ts")])
      && Walk(Ascii, odd) == Success([])
  {
    ScriptNameExactly(Ascii, Some("a.js"));
    ScriptNameExactly(Ascii, Some("b.ts"));
    var odd := Listing(true, None, Items([
      Entry(GitHubFile(Some("a.js"), None, Some("file"), Some("a.js")), Listing(false, None, Null)),
      Entry(GitHubFile(Some("b.ts"), Some("u/b.ts"), Some("dir"), Some("")), Listing(false, None, Null))]));
    var es := odd.data.entries;
    assert es[1..] == [es[1]];
    assert es[1..][1..] == [];
    assert SelectScriptUrls(Ascii, es[1..]) == [Some("u/b.ts")] + [];
    var v := SelectScriptUrls(Ascii, es);
    assert v == [None] + [Some("u/b.ts")];
    assert v == [None, Some("u/b.ts")] by {
      assert |v| == 2 && v[0] == None && v[1] == Some("u/b.ts");
    }
    assert |es| == 2;
    assert Scan(Ascii, odd, 1).value == [];
    assert Scan(Ascii, odd, 2).value == [];
  }

  /** Two entries with the same URL give that URL twice. */
  lemma NoDeduplication()
    ensures Walk(Ascii, Listing(true, None, Items([FileEntry("a.js", "u"), FileEntry("a.js", "u")])))
      == Success([Some("u"), Some("u")])
  {
    ScriptNameExactly(Ascii, Some("a.js"));
    var l := Listing(true, None, Items([FileEntry("a.js", "u"), FileEntry("a.js", "u")]));
    assert Scan(Ascii, l, 1).value == [] + [Some("u")];
    assert Scan(Ascii, l, 2).value == [Some("u")] + [Some("u")];
    assert |l.data.entries| == 2;
    var v := Scan(Ascii, l, 2).value;
    assert v == [Some("u"), Some("u")] by {
      assert |v| == 2 && v[0] == Some("u") && v[1] == Some("u");
    }
  }

  /** A failed listing of lib makes the whole walk fail, with the message
      wrapped once per level. */
  lemma NestedListingFailure()
    ensures
      var root := Listing(true, None, Items([
        FileEntry("index.js", "u/index.js"),
        Entry(GitHubFile(Some("lib"), None, Some("dir"), Some("lib")), Listing(false, Some("Not Found"), Null))]));
      Walk(Ascii, root) == Failure(RecursivePrefix + RecursivePrefix + ContentsFailed + "Not Found")
  {
    ScriptNameExactly(Ascii, Some("index.js"));
    var root := Listing(true, None, Items([
      FileEntry("index.js", "u/index.js"),
      Entry(GitHubFile(Some("lib"), None, Some("dir"), Some("lib")), Listing(false, Some("Not Found"), Null))]));
    assert |root.data.entries| == 2;
    assert Scan(Ascii, root, 1).value == [] + [Some("u/index.js")];
    assert Scan(Ascii, root, 2) == Failure(RecursivePrefix + ContentsFailed + "Not Found");
  }

  /** Serves "const a = 1;" for x1.js and "let b = 2;" for x2.ts. */
  function TwoFileServer(): Server {
    Server(Listing(true, None, Items([])),
      u => if u == Some("x1.js") then ContentResponse(true, Some("const a = 1;"))
           else if u == Some("x2.ts") then ContentResponse(true, Some("let b = 2;"))
           else ContentResponse(false, None))
  }

  /** The first word of the first file. */
  lemma KeywordCounts()
    ensures LetterHistogram(Ascii, "const") == map['c' := 1, 'o' := 1, 'n' := 1, 's' := 1, 't' := 1]
  {
    var w := "const";
    assert w[..0] == "";
    assert LetterHistogram(Ascii, w[..1]) == map['c' := 1] by { assert w[..1][..0] == w[..0]; }
    assert LetterHistogram(Ascii, w[..2]) == map['c' := 1, 'o' := 1] by { assert w[..2][..1] == w[..1]; }
    assert LetterHistogram(Ascii, w[..3]) == map['c' := 1, 'o' := 1, 'n' := 1] by { assert w[..3][..2] == w[..2]; }
    assert LetterHistogram(Ascii, w[..4]) == map['c' := 1, 'o' := 1, 'n' := 1, 's' := 1] by { assert w[..4][..3] == w[..3]; }
    assert w == w[..5];
  }

  lemma FirstStatementCounts()
    ensures LetterHistogram(Ascii, "const a") == map['c' := 1, 'o' := 1, 'n' := 1, 's' := 1, 't' := 1, 'a' := 1]
  {
    var w := "const a";
    KeywordCounts();
    assert w[..5] == "const";
    assert LetterHistogram(Ascii, w[..6]) == map['c' := 1, 'o' := 1, 'n' := 1, 's' := 1, 't' := 1] by { assert w[..6][..5] == w[..5]; }
    assert w == w[..7];
  }

  lemma FirstFileCounts()
    ensures LetterHistogram(Ascii, "const a = 1;") == map['c' := 1, 'o' := 1, 'n' := 1, 's' := 1, 't' := 1, 'a' := 1]
  {
    var w := "const a = 1;";
    FirstStatementCounts();
    assert w[..7] == "const a";
    assert LetterHistogram(Ascii, w[..8]) == map['c' := 1, 'o' := 1, 'n' := 1, 's' := 1, 't' := 1, 'a' := 1] by { assert w[..8][..7] == w[..7]; }
    assert LetterHistogram(Ascii, w[..9]) == map['c' := 1, 'o' := 1, 'n' := 1, 's' := 1, 't' := 1, 'a' := 1] by { assert w[..9][..8] == w[..8]; }
    assert LetterHistogram(Ascii, w[..10]) == map['c' := 1, 'o' := 1, 'n' := 1, 's' := 1, 't' := 1, 'a' := 1] by { assert w[..10][..9] == w[..9]; }
    assert LetterHistogram(Ascii, w[..11]) == map['c' := 1, 'o' := 1, 'n' := 1, 's' := 1, 't' := 1, 'a' := 1] by { assert w[..11][..10] == w[..10]; }
    assert w == w[..12];
  }

  lemma SecondStatementCounts()
    ensures LetterHistogram(Ascii, "let b") == map['l' := 1, 'e' := 1, 't' := 1, 'b' := 1]
  {
    var w := "let b";
    assert w[..0] == "";
    assert LetterHistogram(Ascii, w[..1]) == map['l' := 1] by { assert w[..1][..0] == w[..0]; }
    assert LetterHistogram(Ascii, w[..2]) == map['l' := 1, 'e' := 1] by { assert w[..2][..1] == w[..1]; }
    assert LetterHistogram(Ascii, w[..3]) == map['l' := 1, 'e' := 1, 't' := 1] by { assert w[..3][..2] == w[..2]; }
    assert LetterHistogram(Ascii, w[..4]) == map['l' := 1, 'e' := 1, 't' := 1] by { assert w[..4][..3] == w[..3]; }
    assert w == w[..5];
  }

  lemma SecondFileCounts()
    ensures LetterHistogram(Ascii, "let b = 2;") == map['l' := 1, 'e' := 1, 't' := 1, 'b' := 1]
  {
    var w := "let b = 2;";
    SecondStatementCounts();
    assert w[..5] == "let b";
    assert LetterHistogram(Ascii, w[..6]) == map['l' := 1, 'e' := 1, 't' := 1, 'b' := 1] by { assert w[..6][..5] == w[..5]; }
    assert LetterHistogram(Ascii, w[..7]) == map['l' := 1, 'e' := 1, 't' := 1, 'b' := 1] by { assert w[..7][..6] == w[..6]; }
    assert LetterHistogram(Ascii, w[..8]) == map['l' := 1, 'e' := 1, 't' := 1, 'b' := 1] by { assert w[..8][..7] == w[..7]; }
    assert LetterHistogram(Ascii, w[..9]) == map['l' := 1, 'e' := 1, 't' := 1, 'b' := 1] by { assert w[..9][..8] == w[..8]; }
    assert w == w[..10];
  }

  /** Two files: two fetches, in order, each answered with its content. */
  lemma TwoFilesFetched()
    ensures FetchAll(TwoFileServer(), [Some("x1.js"), Some("x2.ts")]) == Success(["const a = 1;", "let b = 2;"])
    ensures FetchCalls(TwoFileServer(), [Some("x1.js"), Some("x2.ts")]) == 2
  {
    var fs := [Some("x1.js"), Some("x2.ts")];
    var cs := ["const a = 1;", "let b = 2;"];
    assert fs[..1] == [Some("x1.js")];
    assert [Some("x1.js")][..0] == [];
    assert FetchAll(TwoFileServer(), fs[..1]).value == [] + ["const a = 1;"];
    var v := FetchAll(TwoFileServer(), fs).value;
    assert v == ["const a = 1;"] + ["let b = 2;"];
    assert v == cs by {
      assert |v| == 2 && v[0] == cs[0] && v[1] == cs[1];
    }
  }

  /** The counts of the two contents together: t is counted once in each. */
  lemma TwoFilesCounts()
    ensures LetterHistogram(Ascii, Concat(["const a = 1;", "let b = 2;"])) ==
      map['c' := 1, 'o' := 1, 'n' := 1, 's' := 1, 't' := 2, 'a' := 1, 'l' := 1, 'e' := 1, 'b' := 1]
  {
    var cs := ["const a = 1;", "let b = 2;"];
    assert cs[..1] == ["const a = 1;"];
    assert ["const a = 1;"][..0] == [];
    assert Concat(cs) == "const a = 1;" + "let b = 2;" by {
      assert Concat(cs[..1]) == "" + "const a = 1;";
    }
    FirstFileCounts();
    SecondFileCounts();
    HistogramOfJoin(Ascii, "const a = 1;", "let b = 2;");
    MergeOfSampleCounts();
  }

  lemma MergeOfSampleCounts()
    ensures Merge(map['c' := 1, 'o' := 1, 'n' := 1, 's' := 1, 't' := 1, 'a' := 1], map['l' := 1, 'e' := 1, 't' := 1, 'b' := 1]) ==
      map['c' := 1, 'o' := 1, 'n' := 1, 's' := 1, 't' := 2, 'a' := 1, 'l' := 1, 'e' := 1, 'b' := 1]
  {
  }

  /** The second of three fetches fails: the run ends there with that
      failure, and the third file is never requested. */
  lemma SecondFetchFails()
    ensures
      var fs := [Some("x1.js"), Some("missing.js"), Some("x2.ts")];
      && FetchAll(TwoFileServer(), fs) == Failure(ContentPrefix + "File missing.js not found missing.js")
      && FetchCalls(TwoFileServer(), fs) == 2
  {
    var fs := [Some("x1.js"), Some("missing.js"), Some("x2.ts")];
    var server := TwoFileServer();
    assert fs[..2] == [Some("x1.js"), Some("missing.js")];
    assert fs[..2][..1] == [Some("x1.js")];
    assert [Some("x1.js")][..0] == [];
    assert FetchAll(server, fs[..1]).Success?;
    assert GetFileContent(server, Some("missing.js")) == Failure(ContentPrefix + "File missing.js not found missing.js");
    assert FetchAll(server, fs[..2]) == Failure(ContentPrefix + "File missing.js not found missing.js");
    assert FetchCalls(server, fs[..2]) == 2;
  }

  /** An empty or letter-free file is fetched and changes no count. */
  lemma EmptyFileContributesNothing(t: CharTables, m: Histogram)
    ensures Merge(m, LetterHistogram(t, "")) == m
  {
    MergeEmpty(m);
  }

  /** One file with empty content: one fetch, "Found 1 js/ts files.", and
      nothing counted or printed. */
  lemma EmptyFileRun(t: CharTables, server: Server,
                     outcome: Outcome, fetched: seq<NullableString>, printed: seq<(char, nat)>, log: seq<LogEntry>)
    requires server.raw(Some("empty-file.js")) == ContentResponse(true, Some(""))
    requires AggregationRun(t, server, [Some("empty-file.js")], outcome, fetched, printed, log)
    ensures fetched == [Some("empty-file.js")] && log == [FoundFiles(1)]
    ensures outcome == Completed(map[]) && printed == []
  {
    var fs := [Some("empty-file.js")];
    assert fs[..0] == [];
    assert FetchAll(server, fs) == Success([] + [""]);
    assert Concat([""]) == "" + "" by { assert [""][..0] == []; }
  }

  /** One file holding only digits: the same, nothing is counted. */
  lemma NoLettersRun(server: Server,
                     outcome: Outcome, fetched: seq<NullableString>, printed: seq<(char, nat)>, log: seq<LogEntry>)
    requires server.raw(Some("fileWithNoLetters.js")) == ContentResponse(true, Some("1234567890"))
    requires AggregationRun(Ascii, server, [Some("fileWithNoLetters.js")], outcome, fetched, printed, log)
    ensures fetched == [Some("fileWithNoLetters.js")] && log == [FoundFiles(1)]
    ensures outcome == Completed(map[]) && printed == []
  {
    var fs := [Some("fileWithNoLetters.js")];
    assert fs[..0] == [];
    assert FetchAll(server, fs) == Success([] + ["1234567890"]);
    assert Concat(["1234567890"]) == "1234567890" by {
      assert ["1234567890"][..0] == [];
      assert "" + "1234567890" == "1234567890";
    }
    NoLettersNoKeys(Ascii, "1234567890");
  }

  /** The combined counts of the two files. */
  const SampleTotals: Histogram :=
    map['c' := 1, 'o' := 1, 'n' := 1, 's' := 1, 't' := 2, 'a' := 1, 'l' := 1, 'e' := 1, 'b' := 1]

  /** t is the only letter of the two files counted more than once. */
  lemma SampleTotalsTop()
    ensures 't' in SampleTotals && forall k :: k in SampleTotals && k != 't' ==> SampleTotals[k] < SampleTotals['t']
  {
  }

  /** The two-file run: both files are fetched, in order, the count of both
      is logged, and t is printed first. */
  lemma TwoFileRun(outcome: Outcome, fetched: seq<NullableString>, printed: seq<(char, nat)>, log: seq<LogEntry>)
    requires AggregationRun(Ascii, TwoFileServer(), [Some("x1.js"), Some("x2.ts")], outcome, fetched, printed, log)
    ensures fetched == [Some("x1.js"), Some("x2.ts")] && log == [FoundFiles(2)]
    ensures outcome == Completed(SampleTotals)
    ensures |printed| > 0 && printed[0] == ('t', 2)
  {
    var fs := [Some("x1.js"), Some("x2.ts")];
    TwoFilesFetched();
    TwoFilesCounts();
    assert fs[..2] == fs;
    assert outcome.frequency == SampleTotals;
    SampleTotalsTop();
    StrictMaximumPrintedFirst(SampleTotals, printed, 't');
  }
}
