# LetterStatistics in Dafny

LetterStatistics is a console program. It lists the JavaScript and TypeScript
files of a GitHub repository, downloads each one, and counts how often every
letter occurs across all of them. It then prints the letters by descending
count. This project models the three parts of the program that hold its
logic, and proves what they promise:

- **CharacterCounterService** (`CharacterCounterService.dfy`).
  - `CountLetters` is a loop that builds a histogram in place. It keeps the
    letters of the text, folds each one to lower case, and adds one per
    occurrence with `TryAdd` or an increment.
  - `PrintLetterCount` emits the histogram's entries by descending count.
- **GitHubApiClient** (`GitHubApiClient.dfy`).
  - The `.js`/`.ts` name test.
  - The root listing `GetFileNamesAsync`, a LINQ filter.
  - The recursive depth-first walk `GetFileNamesAsyncRecursively`.
  - The content fetch `GetFileContentAsync`.

  The GitHub contents API is modelled as a tree whose nodes are listing
  responses (`Listing`): each entry carries the listing its path would
  return. The raw download endpoint is a function from URL to response
  (`Server.raw`). Every exception becomes a `Failure` that carries the
  message the source builds, wrapped once per `catch` that rethrows it.
- **GitHubRepository** (`GitHubRepository.dfy`). `ProcessFilesAsync` and
  `ProcessFilesRecursivelyAsync`:
  1. log the number of files found;
  2. fetch each file in list order;
  3. count its letters and merge the counts into one dictionary;
  4. print the result.

  The first exception is logged and ends the run.

`Text.dfy` models the .NET string helpers the core uses. `Entities.dfy` holds
the `GitHubFile` record. `Wrappers.dfy` defines `Option` and `Result`.
`Examples.dfy` states the model's results on concrete inputs. Some of them
are the inputs of the repository's unit tests (`TestWordCounts`,
`SymbolsOnlyCounts`, `LargeInputCounts`, `TwoFilesFetched`, `TwoFileRun`,
`EmptyFileRun`, `NoLettersRun`, each citing its test). The others are small
sample listings and texts that show the code's behaviour at its edges.

`char.IsLetter`, `char.ToLower` and the upper-casing of
`StringComparison.OrdinalIgnoreCase` are parameters of type
`Text.CharTables`. Every property holds for every choice of these tables. The
examples use an ASCII instance, `Text.Ascii`.

Some consequences of the code that the model makes explicit:

- The recursive walk keeps duplicate URLs and returns them in depth-first
  listing order, a directory's files at the directory's position
  (`WalkIsDepthFirst`, `WalkLength`, `Examples.NoDeduplication`).
- `OrderByDescending` is a stable sort over the dictionary's enumeration
  order, which .NET does not specify, so the order among equal counts is
  left open.
- A key is any character for which `char.IsLetter` holds, lowered by
  `char.ToLower`; it is not limited to the 26 ASCII letters.
- Each fetch is awaited before the next one starts: the files are fetched
  one at a time, in list order.
- The root filter tests the name alone. An entry of type "dir" whose name
  ends in ".ts" is listed with its download URL, and a ".js" file without a
  download URL is listed as null (`Examples.RootListingChecksNameOnly`).

## Model

| member | source | states |
|---|---|---|
| CharacterCounterService.CountLetters | LetterStatistics.ConsoleApp/Domain/Services/CharacterCounterService.cs:14-30 | The loop's dictionary is the counting fold of the whole text. Every key's count is the number of positions holding a letter whose lower-case form is that key, and a key is present exactly when that number is positive. |
| CharacterCounterService.Bump | LetterStatistics.ConsoleApp/Domain/Services/CharacterCounterService.cs:22-26 | One occurrence of a key: the key is present afterwards, its count (0 if it was absent) goes up by one, and every other key keeps its count. |
| CharacterCounterService.LetterHistogram | LetterStatistics.ConsoleApp/Domain/Services/CharacterCounterService.cs:19-26 | The counting fold over the text, left to right. Every stored count is between 1 and the length of the text. |
| CharacterCounterService.HistogramCountsOccurrences | LetterStatistics.ConsoleApp/Domain/Services/CharacterCounterService.cs:19-26 | For every key, the stored count (0 if absent) equals the number of matching positions, and the key is present if and only if that number is positive. |
| CharacterCounterService.EmptyTextHasEmptyHistogram | LetterStatistics.ConsoleApp/Domain/Services/CharacterCounterService.cs:14-29 | An empty string yields an empty dictionary. |
| CharacterCounterService.NoLettersNoKeys | LetterStatistics.ConsoleApp/Domain/Services/CharacterCounterService.cs:19 | A text with no letter characters yields an empty dictionary. |
| CharacterCounterService.KeysComeFromLetters | LetterStatistics.ConsoleApp/Domain/Services/CharacterCounterService.cs:19-25 | Every key is the lower-case form of some letter of the text, and every stored count is at least 1. |
| CharacterCounterService.CaseInsensitive | LetterStatistics.ConsoleApp/Domain/Services/CharacterCounterService.cs:19 | Two texts that agree, position by position, on which characters are letters and on their lower-case forms have the same dictionary. So "A" and "a" are counted under one key. |
| CharacterCounterService.SumIsLetterCount | LetterStatistics.ConsoleApp/Domain/Services/CharacterCounterService.cs:19-26 | The counts add up to the number of letter characters in the text. |
| CharacterCounterService.RepeatedLetter | LetterStatistics.ConsoleApp/Domain/Services/CharacterCounterService.cs:19-26 | A letter repeated n times gives exactly one key, its lower-case form, with count n (nothing for n = 0). |
| CharacterCounterService.TopKeyIsMaximum | LetterStatistics.ConsoleApp/Domain/Services/CharacterCounterService.cs:43 | Every non-empty dictionary has an entry whose count is the largest, so a descending order can always emit one next. |
| CharacterCounterService.PrintLetterCount | LetterStatistics.ConsoleApp/Domain/Services/CharacterCounterService.cs:40-50 | The printed lines are exactly the dictionary's entries, each once and with its own count, in non-increasing order of count. |
| CharacterCounterService.StrictMaximumPrintedFirst | LetterStatistics.ConsoleApp/Domain/Services/CharacterCounterService.cs:43-48 | In any such listing, a key whose count is larger than every other key's is on the first line. |
| GitHubApiClient.IsScriptName | LetterStatistics.ConsoleApp/Infrastructure/GitHub/GitHubApiClient.cs:41 | A name that passes the test is non-null and has at least three characters. |
| GitHubApiClient.ScriptNameExactly | LetterStatistics.ConsoleApp/Infrastructure/GitHub/GitHubApiClient.cs:41 | The name test accepts a name if and only if it is non-null, has at least three characters, and ends in '.', then 'j' or 't', then 's', compared after upper-casing. |
| GitHubApiClient.GetFileNames | LetterStatistics.ConsoleApp/Infrastructure/GitHub/GitHubApiClient.cs:29-53 | The root listing succeeds if and only if the response is successful and carries data. An unsuccessful response fails with "Error in GetFileNamesAsync: Error getting file list from GitHub." Missing data fails with the prefixed null-argument message. |
| GitHubApiClient.SelectScriptUrls | LetterStatistics.ConsoleApp/Infrastructure/GitHub/GitHubApiClient.cs:40-42 | The filter returns at most one URL per entry, and nothing when no entry's name passes the test. |
| GitHubApiClient.SelectScriptUrlsAppend | LetterStatistics.ConsoleApp/Infrastructure/GitHub/GitHubApiClient.cs:40-42 | The filter keeps listing order: filtering two listings joined gives the two filtered parts joined. |
| GitHubApiClient.SelectScriptUrlsMembers | LetterStatistics.ConsoleApp/Infrastructure/GitHub/GitHubApiClient.cs:40-42 | A URL is returned if and only if some entry whose name passes the test carries it. Neither the type nor the URL is checked, and the result is no longer than the listing. |
| GitHubApiClient.GetFileNamesRecursively | LetterStatistics.ConsoleApp/Infrastructure/GitHub/GitHubApiClient.cs:62-112 | The recursive method (a loop that appends, and a recursive call per directory) returns exactly what the walk specification `Walk` gives, including every failure message. |
| GitHubApiClient.ScanFailurePersists | LetterStatistics.ConsoleApp/Infrastructure/GitHub/GitHubApiClient.cs:82-103 | Once the loop over a listing has thrown, later entries change nothing: the failure is the result. |
| GitHubApiClient.Walk | LetterStatistics.ConsoleApp/Infrastructure/GitHub/GitHubApiClient.cs:73-112 | The walk of one listing. Every URL of a successful walk is a non-null, non-empty string. A failed walk's message starts with "Error in GetFileNamesAsyncRecursively: ". |
| GitHubApiClient.Scan | LetterStatistics.ConsoleApp/Infrastructure/GitHub/GitHubApiClient.cs:82-103 | The loop over the first k entries of a listing: the same two properties. A failure can only come from a subdirectory's walk, so it carries the walk's prefix too. |
| GitHubApiClient.WalkIsDepthFirst | LetterStatistics.ConsoleApp/Infrastructure/GitHub/GitHubApiClient.cs:73-103 | The walk succeeds if and only if every listing it requests succeeds. It then returns the download URLs of the contributing entries (a "file" entry that passes the name test and has a non-empty URL), in depth-first order, with a directory's results at its position. |
| GitHubApiClient.ScanIsDepthFirst | LetterStatistics.ConsoleApp/Infrastructure/GitHub/GitHubApiClient.cs:82-103 | The same for the first k entries of one listing: the loop state after k entries succeeds if and only if they list successfully, and holds their contributed URLs in order. |
| GitHubApiClient.WalkLength | LetterStatistics.ConsoleApp/Infrastructure/GitHub/GitHubApiClient.cs:66-99 | A successful walk returns one URL per contributing entry it visits. Nothing is removed as a duplicate. |
| GitHubApiClient.GetFileContent | LetterStatistics.ConsoleApp/Infrastructure/GitHub/GitHubApiClient.cs:122-144 | The fetch succeeds if and only if the response is successful. A null body yields "", any other body is returned as is, and a failure carries "Error in GetFileContentAsync: File {url} not found {url}". |
| GitHubRepository.Merge | LetterStatistics.ConsoleApp/Application/Services/GitHubRepository.cs:55-65 | The merged dictionary has the keys of both, and each key's count is the sum of the two counts, a missing key counting as zero. |
| GitHubRepository.MergeCounts | LetterStatistics.ConsoleApp/Application/Services/GitHubRepository.cs:55-65 | The in-place loop (add to an existing key, or insert) leaves the pointwise sum, whatever order it visits the file's entries in. Keys the file does not have keep their count. |
| GitHubRepository.MergeEmpty | LetterStatistics.ConsoleApp/Application/Services/GitHubRepository.cs:55-65 | Merging an empty file dictionary changes nothing. |
| GitHubRepository.MergeCommutative | LetterStatistics.ConsoleApp/Application/Services/GitHubRepository.cs:55-65 | The merge does not depend on which dictionary is the running one. |
| GitHubRepository.MergeAssociative | LetterStatistics.ConsoleApp/Application/Services/GitHubRepository.cs:44-66 | Merging files one after the other does not depend on grouping. |
| GitHubRepository.HistogramOfJoin | LetterStatistics.ConsoleApp/Application/Services/GitHubRepository.cs:52-65 | Counting two texts separately and merging the counts gives the counts of the texts joined. |
| GitHubRepository.SumOfCountsIsCountOfConcat | LetterStatistics.ConsoleApp/Application/Services/GitHubRepository.cs:44-69 | The running dictionary after all files is the letter count of all contents joined. |
| GitHubRepository.FetchAll | LetterStatistics.ConsoleApp/Application/Services/GitHubRepository.cs:44-50 | The fetches of the loop, stopping at the first exception. A success holds one content per name. A failure carries the message of a fetch of one of the names. |
| GitHubRepository.FetchCalls | LetterStatistics.ConsoleApp/Application/Services/GitHubRepository.cs:44-75 | The number of fetches issued: at most one per name, and at least one when there is a name. |
| GitHubRepository.FetchAllFailsFast | LetterStatistics.ConsoleApp/Application/Services/GitHubRepository.cs:44-50 | A run without failure fetches every listed name once, in order, and each content is that fetch's result. A failed run fetched every name up to and including the first failing one, fails with its message, and all earlier fetches succeeded. |
| GitHubRepository.FetchFailurePersists | LetterStatistics.ConsoleApp/Application/Services/GitHubRepository.cs:71-75 | Once a fetch has failed, later names are neither fetched nor change the outcome. |
| GitHubRepository.AggregateFiles | LetterStatistics.ConsoleApp/Application/Services/GitHubRepository.cs:39-69 | The loop body shared by both processing methods. The log starts with "Found n js/ts files" for n names. The URLs requested are the names up to the first failure. On failure: the error is logged once, rethrown, and nothing is printed. Otherwise the result is the letter count of all contents joined, printed once per entry in descending order. |
| GitHubRepository.ProcessFiles | LetterStatistics.ConsoleApp/Application/Services/GitHubRepository.cs:33-77 | A failed root listing is logged, rethrown, and nothing is fetched or printed. Otherwise the run is the aggregation over the root listing's URLs. |
| GitHubRepository.ProcessFilesRecursively | LetterStatistics.ConsoleApp/Application/Services/GitHubRepository.cs:88-132 | The same, over the recursive walk's URLs. |
| Examples.TestWordCounts | LetterStatistics.Tests/DomainTests/CharacterCounterTests.cs:14-23 | "test word" gives t = 2 and e, s, w, o, r, d = 1. The space is not counted. |
| Examples.SymbolsOnlyCounts | LetterStatistics.Tests/DomainTests/CharacterCounterTests.cs:46-52 | "1234!@#$%^&*()" gives an empty dictionary. |
| Examples.LargeInputCounts | LetterStatistics.Tests/DomainTests/CharacterCounterTests.cs:61-73 | Ten million 'a's give a = 10,000,000. |
| Examples.MixedCaseCounts | LetterStatistics.ConsoleApp/Domain/Services/CharacterCounterService.cs:19 | "AaBb" gives a = 2 and b = 2. |
| Examples.ScriptNames | LetterStatistics.ConsoleApp/Infrastructure/GitHub/GitHubApiClient.cs:41 | "A.JS", "x.d.ts" and ".js" pass the name test. "a.jsx", "readme.md", "" and null do not. |
| Examples.RootListingOfSample | LetterStatistics.ConsoleApp/Infrastructure/GitHub/GitHubApiClient.cs:40-42 | The root listing of a repository with index.js, readme.md and a directory lib returns index.js's URL only. |
| Examples.RecursiveListingOfSample | LetterStatistics.ConsoleApp/Infrastructure/GitHub/GitHubApiClient.cs:82-103 | The walk of the same repository returns index.js, then lib/util.ts. |
| Examples.RootListingChecksNameOnly | LetterStatistics.ConsoleApp/Infrastructure/GitHub/GitHubApiClient.cs:40-42 | The root listing returns a null URL and a directory whose name ends in ".ts". The walk returns neither. |
| Examples.NoDeduplication | LetterStatistics.ConsoleApp/Infrastructure/GitHub/GitHubApiClient.cs:90 | Two entries with the same URL give that URL twice. |
| Examples.NestedListingFailure | LetterStatistics.ConsoleApp/Infrastructure/GitHub/GitHubApiClient.cs:107-111 | A failed listing of a subdirectory fails the whole walk, with the walk prefix applied once per level. |
| Examples.TwoFilesFetched | LetterStatistics.Tests/ApplicationTests/GitHubRepositoryTests.cs:89-104 | The two names x1.js and x2.ts give two fetches, in order, with the two contents. |
| Examples.TwoFilesCounts | LetterStatistics.ConsoleApp/Application/Services/GitHubRepository.cs:44-69 | The two contents together count t twice and every other letter once. |
| Examples.TwoFileRun | LetterStatistics.Tests/ApplicationTests/GitHubRepositoryTests.cs:89-107 | The run over the two files requests both, logs "Found 2 js/ts files", completes with the combined counts, and prints t first. |
| Examples.SecondFetchFails | LetterStatistics.ConsoleApp/Application/Services/GitHubRepository.cs:44-50 | When the second of three fetches fails, the run fails with that message after two fetches. The third file is never requested. |
| Examples.EmptyFileRun | LetterStatistics.Tests/ApplicationTests/GitHubRepositoryTests.cs:43-53 | A single empty file: one fetch, "Found 1 js/ts files", an empty result and nothing printed. |
| Examples.NoLettersRun | LetterStatistics.Tests/ApplicationTests/GitHubRepositoryTests.cs:66-76 | A single file of digits only: the same. |
| Examples.EmptyFileContributesNothing | LetterStatistics.ConsoleApp/Application/Services/GitHubRepository.cs:50-65 | Merging the counts of an empty file leaves the running dictionary unchanged. |

## Left out

- HTTP and authentication: the RestSharp client, its headers and the access token. The contents API is a `Listing` tree and the download endpoint a function `Server.raw`.
- The request paths `/repos/lodash/lodash/contents/{directory}`: each directory's listing is carried by its entry, so the path is not needed to find it.
- JSON deserialisation. `GitHubFile` is used only as the shape of an entry. A null element inside the listing array is not modelled: every entry is a record.
- async/await: every call is sequential, as the awaits make it in the source.
- Console output: the colours, the "Reading file: …" lines and the text format of a printed line. `PrintLetterCount` returns its lines as (letter, count) pairs.
- Logging beyond its content. The log is a sequence of `LogEntry` values; Microsoft.Extensions.Logging is not part of this model.
- The test that ProcessFilesAsync rethrows the exception of a mocked GetFileNamesAsync is covered through the listing failure branch of `GitHubRepository.ProcessFiles`. Moq itself is not modelled.
- Program.cs (configuration, dependency injection, the interactive menu), the interfaces IGitHubApiClient and IGitHubRepository, and LoggerService: wiring with no logic of their own.
- The Unicode tables behind `char.IsLetter`, `char.ToLower` and ordinal case-insensitive comparison. They are the abstract `CharTables`, with an ASCII instance for the examples.
- UTF-16: a C# `char` is a UTF-16 code unit, a Dafny `char` a Unicode scalar value. Surrogate pairs are not modelled.
- CharacterCounterService.CountLetters: counts are unbounded naturals. This loses nothing here: a .NET string holds at most 0x3FFFFFDF characters, so no count of one text reaches 2^31 - 1.
- GitHubRepository.MergeCounts: the sum of two counts (`+=` at GitHubRepository.cs:59 and :114) is unbounded. In the source it is a 32-bit `int` and would wrap once the files together hold more than 2^31 - 1 copies of one letter.
- GitHubRepository.AggregateFiles: the same. The running dictionary's counts do not wrap around at 2^31.
- A cyclic listing cannot be expressed. `Listing` is a finite tree, so a directory whose listing leads back to one of its ancestors is not modelled; the source (GitHubApiClient.cs:98) would recurse into it without end. GitHub's contents trees are acyclic.
- CharacterCounterService.PrintLetterCount: the order among equal counts is not stated. The source leaves it to the dictionary's enumeration order, which .NET does not specify. The stable sort is modelled as a loop that emits a largest remaining entry at each step.
- The elapsed-time assertion of the large-input test: execution time is not part of the model.
- Fetching files concurrently: the source does not, and neither does the model.
