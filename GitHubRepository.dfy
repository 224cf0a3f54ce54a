/** GitHubRepository: ProcessFilesAsync and ProcessFilesRecursivelyAsync.
    Each takes a list of download URLs, fetches the files one after the
    other, merges every file's letter counts into one dictionary and prints
    the result; the first exception ends the run, is logged and rethrown. */
module GitHubRepository {
  import opened Wrappers
  import opened Text
  import opened CharacterCounterService
  import opened GitHubApiClient

  /** What the logger is told. */
  datatype LogEntry =
    | FoundFiles(count: nat)          // "Found {count} js/ts files."
    | ErrorOccurred(message: string)  // "An error occurred: {message}"

  /** How a run ends: with the merged letter counts, or with the exception
      that is rethrown to the caller. */
  datatype Outcome = Completed(frequency: Histogram) | Failed(message: string)

  /** The dictionary the merge loop leaves behind: the counts of both
      dictionaries added key by key, a missing key counting as zero. */
  function Merge(a: Histogram, b: Histogram): (r: Histogram)
    ensures r.Keys == a.Keys + b.Keys
    ensures forall k :: Get(r, k) == Get(a, k) + Get(b, k)
  {
    map k | k in a.Keys + b.Keys :: Get(a, k) + Get(b, k)
  }

  /** The inner foreach: every entry of fileLetterCount is added to the
      entry of characterFrequency for the same key, or inserted when the key
      is absent. The order in which the entries are visited is left open. */
  method MergeCounts(characterFrequency: Histogram, fileLetterCount: Histogram) returns (merged: Histogram)
    ensures merged == Merge(characterFrequency, fileLetterCount)
    ensures forall k :: k !in fileLetterCount ==> Get(merged, k) == Get(characterFrequency, k)
  {
    merged := characterFrequency;
    var pending := fileLetterCount.Keys;
    while pending != {}
      invariant pending <= fileLetterCount.Keys
      invariant merged == Merge(characterFrequency, fileLetterCount - pending)
      decreases pending
    {
      var key :| key in pending;
      MergeInsert(characterFrequency, fileLetterCount, pending, key);
      if key in merged {
        assert Get(merged, key) == merged[key];
        merged := merged[key := merged[key] + fileLetterCount[key]];
      } else {
        assert Get(merged, key) == 0;
        merged := merged[key := fileLetterCount[key]];
      }
      pending := pending - {key};
    }
    assert fileLetterCount - {} == fileLetterCount;
  }

  /** Moving one key from pending to done adds its count into the merge. */
  lemma MergeInsert(a: Histogram, b: Histogram, pending: set<char>, key: char)
    requires key in pending && pending <= b.Keys
    ensures
      var before := Merge(a, b - pending);
      Merge(a, b - (pending - {key})) == before[key := Get(before, key) + b[key]]
  {
    var done := b - pending;
    assert b - (pending - {key}) == done[key := b[key]];
  }

  /** Adding no counts changes nothing: an empty or letter-free file leaves
      the running dictionary as it was. */
  lemma MergeEmpty(a: Histogram)
    ensures Merge(a, map[]) == a
  {
  }

  lemma MergeCommutative(a: Histogram, b: Histogram)
    ensures Merge(a, b) == Merge(b, a)
  {
  }

  lemma MergeAssociative(a: Histogram, b: Histogram, c: Histogram)
    ensures Merge(Merge(a, b), c) == Merge(a, Merge(b, c))
  {
  }

  lemma MergeBump(a: Histogram, b: Histogram, key: char)
    ensures Bump(Merge(a, b), key) == Merge(a, Bump(b, key))
  {
    var l, r := Bump(Merge(a, b), key), Merge(a, Bump(b, key));
    assert l.Keys == r.Keys;
    assert forall k | k in l :: l[k] == Get(l, k) == Get(r, k) == r[k];
  }

  /** Counting the letters of two texts separately and merging the counts
      gives the counts of the texts joined. */
  lemma {:induction false} HistogramOfJoin(t: CharTables, s: string, u: string)
    ensures LetterHistogram(t, s + u) == Merge(LetterHistogram(t, s), LetterHistogram(t, u))
    decreases |u|
  {
    if u == [] {
      assert s + u == s;
      MergeEmpty(LetterHistogram(t, s));
    } else {
      var p, c := u[..|u| - 1], u[|u| - 1];
      assert (s + u)[..|s + u| - 1] == s + p;
      assert (s + u)[|s + u| - 1] == c;
      HistogramOfJoin(t, s, p);
      if t.isLetter(c) {
        MergeBump(LetterHistogram(t, s), LetterHistogram(t, p), t.toLower(c));
      }
    }
  }

  /** The fetches of the outer loop, stopping at the first exception: the
      contents of all files in order, or the first failure's message. */
  function FetchAll(server: Server, fileNames: seq<NullableString>): (r: Result<seq<string>>)
    ensures r.Success? ==> |r.value| == |fileNames|
    ensures r.Failure? ==>
      exists i :: 0 <= i < |fileNames| && GetFileContent(server, fileNames[i]) == Failure(r.error)
  {
    if fileNames == [] then Success([])
    else
      match FetchAll(server, fileNames[..|fileNames| - 1])
      case Failure(e) => Failure(e)
      case Success(contents) =>
        match GetFileContent(server, fileNames[|fileNames| - 1])
        case Failure(e) => Failure(e)
        case Success(c) => Success(contents + [c])
  }

  /** How many fetches the outer loop issues before it ends. */
  function FetchCalls(server: Server, fileNames: seq<NullableString>): (n: nat)
    ensures n <= |fileNames|
    ensures fileNames != [] ==> 1 <= n
  {
    if fileNames == [] then 0
    else if FetchAll(server, fileNames[..|fileNames| - 1]).Failure? then FetchCalls(server, fileNames[..|fileNames| - 1])
    else |fileNames|
  }

  /** All contents, joined. */
  function Concat(contents: seq<string>): string {
    if contents == [] then "" else Concat(contents[..|contents| - 1]) + contents[|contents| - 1]
  }

  /** The running dictionary after the given files: their counts merged
      one after the other into an empty dictionary. */
  function SumOfCounts(t: CharTables, contents: seq<string>): Histogram {
    if contents == [] then map[]
    else Merge(SumOfCounts(t, contents[..|contents| - 1]), LetterHistogram(t, contents[|contents| - 1]))
  }

  /** The pointwise sum of the files' counts is the count of all the files'
      contents joined. */
  lemma {:induction false} SumOfCountsIsCountOfConcat(t: CharTables, contents: seq<string>)
    ensures SumOfCounts(t, contents) == LetterHistogram(t, Concat(contents))
  {
    if contents != [] {
      var front := contents[..|contents| - 1];
      SumOfCountsIsCountOfConcat(t, front);
      HistogramOfJoin(t, Concat(front), contents[|contents| - 1]);
    }
  }

  /** A run without failure fetches every listed file once, in list order,
      and gets each file's content; a failed run has fetched, in order,
      the files before the first failing one and that one, and fails with
      its message. */
  lemma {:induction false} FetchAllFailsFast(server: Server, fileNames: seq<NullableString>)
    ensures FetchAll(server, fileNames).Success? ==>
      && FetchCalls(server, fileNames) == |fileNames|
      && |FetchAll(server, fileNames).value| == |fileNames|
      && forall i :: 0 <= i < |fileNames| ==>
           GetFileContent(server, fileNames[i]) == Success(FetchAll(server, fileNames).value[i])
    ensures FetchAll(server, fileNames).Failure? ==>
      exists k :: 0 <= k < |fileNames| && FetchCalls(server, fileNames) == k + 1
        && GetFileContent(server, fileNames[k]) == Failure(FetchAll(server, fileNames).error)
        && forall i :: 0 <= i < k ==> GetFileContent(server, fileNames[i]).Success?
  {
    if fileNames != [] {
      var n := |fileNames|;
      var front := fileNames[..n - 1];
      FetchAllFailsFast(server, front);
      assert forall i :: 0 <= i < n - 1 ==> front[i] == fileNames[i];
      if FetchAll(server, front).Failure? {
        var k :| 0 <= k < |front| && FetchCalls(server, front) == k + 1
          && GetFileContent(server, front[k]) == Failure(FetchAll(server, front).error)
          && forall i :: 0 <= i < k ==> GetFileContent(server, front[i]).Success?;
        assert GetFileContent(server, fileNames[k]) == Failure(FetchAll(server, fileNames).error);
      }
    }
  }

  lemma {:induction false} FetchFailurePersists(server: Server, fileNames: seq<NullableString>, k: nat)
    requires k <= |fileNames| && FetchAll(server, fileNames[..k]).Failure?
    ensures FetchAll(server, fileNames) == FetchAll(server, fileNames[..k])
    ensures FetchCalls(server, fileNames) == FetchCalls(server, fileNames[..k])
    decreases |fileNames| - k
  {
    if k == |fileNames| {
      assert fileNames[..k] == fileNames;
    } else {
      var front := fileNames[..|fileNames| - 1];
      assert front[..k] == fileNames[..k];
      FetchFailurePersists(server, front, k);
    }
  }

  /** One more successful fetch extends the contents and the running counts. */
  lemma FetchSucceedsAt(t: CharTables, server: Server, fileNames: seq<NullableString>, i: nat, contents: seq<string>)
    requires i < |fileNames| && FetchAll(server, fileNames[..i]) == Success(contents)
    requires GetFileContent(server, fileNames[i]).Success?
    ensures FetchAll(server, fileNames[..i + 1]) == Success(contents + [GetFileContent(server, fileNames[i]).value])
    ensures SumOfCounts(t, contents + [GetFileContent(server, fileNames[i]).value])
         == Merge(SumOfCounts(t, contents), LetterHistogram(t, GetFileContent(server, fileNames[i]).value))
  {
    assert fileNames[..i + 1][..i] == fileNames[..i];
    var c := GetFileContent(server, fileNames[i]).value;
    assert (contents + [c])[..|contents|] == contents;
  }

  /** A failed fetch of the i-th file ends the run with its message, after
      i + 1 fetches. */
  lemma FetchFailsAt(server: Server, fileNames: seq<NullableString>, i: nat, contents: seq<string>)
    requires i < |fileNames| && FetchAll(server, fileNames[..i]) == Success(contents)
    requires GetFileContent(server, fileNames[i]).Failure?
    ensures FetchAll(server, fileNames) == Failure(GetFileContent(server, fileNames[i]).error)
    ensures FetchCalls(server, fileNames) == i + 1
  {
    assert fileNames[..i + 1][..i] == fileNames[..i];
    FetchFailurePersists(server, fileNames, i + 1);
  }

  /** What the caller and the logger observe of a run over fileNames. */
  ghost predicate AggregationRun(
    t: CharTables, server: Server, fileNames: seq<NullableString>,
    outcome: Outcome, fetched: seq<NullableString>, printed: seq<(char, nat)>, log: seq<LogEntry>)
  {
    && fetched == fileNames[..FetchCalls(server, fileNames)]
    && match FetchAll(server, fileNames)
       case Failure(e) =>
         && outcome == Failed(e)
         && printed == []
         && log == [FoundFiles(|fileNames|), ErrorOccurred(e)]
       case Success(contents) =>
         && outcome == Completed(LetterHistogram(t, Concat(contents)))
         && log == [FoundFiles(|fileNames|)]
         && ListsEachEntryOnce(outcome.frequency, printed)
         && NonIncreasing(printed)
  }

  /** The body both ProcessFiles methods share once they have their file
      list: log the count, fetch and count each file, merge, print.
      fetched lists the URLs requested, printed the lines of letter counts. */
  method AggregateFiles(t: CharTables, server: Server, fileNames: seq<NullableString>) returns (outcome: Outcome, fetched: seq<NullableString>, printed: seq<(char, nat)>, log: seq<LogEntry>)
    ensures AggregationRun(t, server, fileNames, outcome, fetched, printed, log)
  {
    log := [FoundFiles(|fileNames|)];
    var characterFrequency: Histogram := map[];
    fetched := [];
    ghost var contents: seq<string> := [];
    for i := 0 to |fileNames|
      invariant fetched == fileNames[..i]
      invariant FetchAll(server, fileNames[..i]) == Success(contents)
      invariant characterFrequency == SumOfCounts(t, contents)
    {
      var fileName := fileNames[i];
      assert fileNames[..i + 1] == fileNames[..i] + [fileName];
      fetched := fetched + [fileName];
      var content := GetFileContent(server, fileName);
      if content.Failure? {
        FetchFailsAt(server, fileNames, i, contents);
        outcome, printed := Failed(content.error), [];
        log := log + [ErrorOccurred(content.error)];
        return;
      }
      FetchSucceedsAt(t, server, fileNames, i, contents);
      var fileLetterCount := CountLetters(t, content.value);
      characterFrequency := MergeCounts(characterFrequency, fileLetterCount);
      contents := contents + [content.value];
    }
    assert fileNames[..|fileNames|] == fileNames;
    FetchAllFailsFast(server, fileNames);
    SumOfCountsIsCountOfConcat(t, contents);
    printed := PrintLetterCount(characterFrequency);
    outcome := Completed(characterFrequency);
  }

  /** ProcessFilesAsync: the root listing's URLs, aggregated. */
  method ProcessFiles(t: CharTables, server: Server) returns (outcome: Outcome, fetched: seq<NullableString>, printed: seq<(char, nat)>, log: seq<LogEntry>)
    ensures GetFileNames(t, server.root).Failure? ==>
      var e := GetFileNames(t, server.root).error;
      outcome == Failed(e) && fetched == [] && printed == [] && log == [ErrorOccurred(e)]
    ensures GetFileNames(t, server.root).Success? ==>
      AggregationRun(t, server, GetFileNames(t, server.root).value, outcome, fetched, printed, log)
  {
    var fileNames := GetFileNames(t, server.root);
    if fileNames.Failure? {
      return Failed(fileNames.error), [], [], [ErrorOccurred(fileNames.error)];
    }
    outcome, fetched, printed, log := AggregateFiles(t, server, fileNames.value);
  }

  /** ProcessFilesRecursivelyAsync: the same, over the recursive walk's URLs. */
  method ProcessFilesRecursively(t: CharTables, server: Server) returns (outcome: Outcome, fetched: seq<NullableString>, printed: seq<(char, nat)>, log: seq<LogEntry>)
    ensures Walk(t, server.root).Failure? ==>
      var e := Walk(t, server.root).error;
      outcome == Failed(e) && fetched == [] && printed == [] && log == [ErrorOccurred(e)]
    ensures Walk(t, server.root).Success? ==>
      AggregationRun(t, server, Walk(t, server.root).value, outcome, fetched, printed, log)
  {
    var fileNames := GetFileNamesRecursively(t, server.root);
    if fileNames.Failure? {
      return Failed(fileNames.error), [], [], [ErrorOccurred(fileNames.error)];
    }
    outcome, fetched, printed, log := AggregateFiles(t, server, fileNames.value);
  }
}
