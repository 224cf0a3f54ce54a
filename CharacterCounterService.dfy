/** CharacterCounterService: the per-text letter histogram (CountLetters) and
    the ordering in which PrintLetterCount emits a histogram's entries. */
module CharacterCounterService {
  import opened Text

  /** A Dictionary<char, int> of letter counts. */
  type Histogram = map<char, nat>

  /** The count a histogram holds for key, 0 when the key is absent. */
  function Get(m: Histogram, key: char): nat {
    if key in m then m[key] else 0
  }

  /** One update of the counting loop: TryAdd(key, 1), or else increment. */
  function Bump(m: Histogram, key: char): (r: Histogram)
    ensures r.Keys == m.Keys + {key}
    ensures Get(r, key) == Get(m, key) + 1
    ensures forall k :: k != key ==> Get(r, k) == Get(m, k)
  {
    if key in m then m[key := m[key] + 1] else m[key := 1]
  }

  /** Whether character c is counted under key. */
  predicate CountsAs(t: CharTables, c: char, key: char) {
    t.isLetter(c) && t.toLower(c) == key
  }

  /** The dictionary CountLetters builds for s: the counting loop's update
      applied to every character of s, from left to right. */
  function LetterHistogram(t: CharTables, s: string): (r: Histogram)
    ensures forall key :: key in r ==> 1 <= r[key] <= |s|
  {
    if s == [] then map[]
    else
      var m := LetterHistogram(t, s[..|s| - 1]);
      var c := s[|s| - 1];
      if t.isLetter(c) then Bump(m, t.toLower(c)) else m
  }

  /** The positions of s whose character is counted under key. */
  ghost function Positions(t: CharTables, s: string, key: char): set<nat> {
    set i: nat | i < |s| && CountsAs(t, s[i], key)
  }

  /** The number of positions of s whose character is counted under key. */
  ghost function Occurrences(t: CharTables, s: string, key: char): nat {
    |Positions(t, s, key)|
  }

  /** The positions of s that hold a letter. */
  ghost function LetterPositions(t: CharTables, s: string): set<nat> {
    set i: nat | i < |s| && t.isLetter(s[i])
  }

  /** The number of letter characters in s. */
  ghost function LetterCount(t: CharTables, s: string): nat {
    |LetterPositions(t, s)|
  }

  /** The sum of all counts in a histogram. */
  ghost function SumValues(m: Histogram): nat
    decreases |m|
  {
    if m == map[] then 0
    else
      var k :| k in m;
      assert |(m - {k}).Keys| < |m.Keys| by {
        assert (m - {k}).Keys == m.Keys - {k};
      }
      m[k] + SumValues(m - {k})
  }

  /** CountLetters: one pass over content, incrementing the count of the
      lower-case form of every letter. */
  method CountLetters(t: CharTables, content: string) returns (characterCount: Histogram)
    ensures characterCount == LetterHistogram(t, content)
    ensures forall key :: Get(characterCount, key) == Occurrences(t, content, key)
    ensures forall key :: key in characterCount <==> Occurrences(t, content, key) > 0
  {
    characterCount := map[];
    for i := 0 to |content|
      invariant characterCount == LetterHistogram(t, content[..i])
    {
      assert content[..i + 1][..i] == content[..i];
      var ch := content[i];
      if t.isLetter(ch) {
        var lowerChar := t.toLower(ch);
        if lowerChar !in characterCount {
          characterCount := characterCount[lowerChar := 1];
        } else {
          characterCount := characterCount[lowerChar := characterCount[lowerChar] + 1];
        }
      }
    }
    assert content[..|content|] == content;
    forall key
      ensures Get(characterCount, key) == Occurrences(t, content, key)
      ensures key in characterCount <==> Occurrences(t, content, key) > 0
    {
      HistogramCountsOccurrences(t, content, key);
    }
  }

  lemma PositionsSnoc(t: CharTables, s: string, c: char, key: char)
    ensures Occurrences(t, s + [c], key) ==
            Occurrences(t, s, key) + (if CountsAs(t, c, key) then 1 else 0)
  {
    var s' := s + [c];
    if CountsAs(t, c, key) {
      assert Positions(t, s', key) == Positions(t, s, key) + {|s|};
      assert |s| !in Positions(t, s, key);
    } else {
      assert Positions(t, s', key) == Positions(t, s, key);
    }
  }

  lemma LetterPositionsSnoc(t: CharTables, s: string, c: char)
    ensures LetterCount(t, s + [c]) == LetterCount(t, s) + (if t.isLetter(c) then 1 else 0)
  {
    var s' := s + [c];
    if t.isLetter(c) {
      assert LetterPositions(t, s') == LetterPositions(t, s) + {|s|};
      assert |s| !in LetterPositions(t, s);
    } else {
      assert LetterPositions(t, s') == LetterPositions(t, s);
    }
  }

  /** The count stored for every key is the number of positions whose
      character is a letter whose lower-case form is that key; a key is
      present exactly when that number is positive. */
  lemma {:induction false} HistogramCountsOccurrences(t: CharTables, s: string, key: char)
    ensures Get(LetterHistogram(t, s), key) == Occurrences(t, s, key)
    ensures key in LetterHistogram(t, s) <==> Occurrences(t, s, key) > 0
  {
    if s == [] {
      assert Positions(t, s, key) == {};
    } else {
      var p, c := s[..|s| - 1], s[|s| - 1];
      assert s == p + [c];
      HistogramCountsOccurrences(t, p, key);
      PositionsSnoc(t, p, c, key);
    }
  }

  /** An empty text yields an empty dictionary. */
  lemma EmptyTextHasEmptyHistogram(t: CharTables)
    ensures LetterHistogram(t, "") == map[]
  {
  }

  /** A text without letter characters yields an empty dictionary. */
  lemma {:induction false} NoLettersNoKeys(t: CharTables, s: string)
    requires forall i :: 0 <= i < |s| ==> !t.isLetter(s[i])
    ensures LetterHistogram(t, s) == map[]
  {
    if s != [] {
      NoLettersNoKeys(t, s[..|s| - 1]);
    }
  }

  /** Every key is the lower-case form of a letter of the text, and every
      stored count is at least one. */
  lemma KeysComeFromLetters(t: CharTables, s: string)
    ensures forall key :: key in LetterHistogram(t, s) ==>
      LetterHistogram(t, s)[key] >= 1 &&
      exists i :: 0 <= i < |s| && t.isLetter(s[i]) && t.toLower(s[i]) == key
  {
    forall key | key in LetterHistogram(t, s)
      ensures LetterHistogram(t, s)[key] >= 1
      ensures exists i :: 0 <= i < |s| && t.isLetter(s[i]) && t.toLower(s[i]) == key
    {
      HistogramCountsOccurrences(t, s, key);
      var i :| i in Positions(t, s, key);
      assert CountsAs(t, s[i], key);
    }
  }

  /** Two texts that agree position by position on which characters are
      letters and on their lower-case forms have the same histogram: upper-
      and lower-case forms of a letter are counted under the same key. */
  lemma {:induction false} CaseInsensitive(t: CharTables, s: string, u: string)
    requires |s| == |u|
    requires forall i :: 0 <= i < |s| ==> t.isLetter(s[i]) == t.isLetter(u[i])
    requires forall i :: 0 <= i < |s| && t.isLetter(s[i]) ==> t.toLower(s[i]) == t.toLower(u[i])
    ensures LetterHistogram(t, s) == LetterHistogram(t, u)
  {
    if s != [] {
      CaseInsensitive(t, s[..|s| - 1], u[..|u| - 1]);
    }
  }

  lemma {:induction false} SumValuesRemove(m: Histogram, k: char)
    requires k in m
    ensures SumValues(m) == m[k] + SumValues(m - {k})
    decreases |m|
  {
    var j :| j in m && SumValues(m) == m[j] + SumValues(m - {j});
    if j != k {
      var mj, mk := m - {j}, m - {k};
      assert mj.Keys == m.Keys - {j};
      assert mk.Keys == m.Keys - {k};
      SumValuesRemove(mj, k);
      SumValuesRemove(mk, j);
      assert mj - {k} == mk - {j};
    }
  }

  lemma SumValuesBump(m: Histogram, key: char)
    ensures SumValues(Bump(m, key)) == SumValues(m) + 1
  {
    var b := Bump(m, key);
    SumValuesRemove(b, key);
    if key in m {
      SumValuesRemove(m, key);
      assert b - {key} == m - {key};
    } else {
      assert b - {key} == m;
    }
  }

  /** The counts of a text's histogram add up to the number of letter
      characters in the text. */
  lemma {:induction false} SumIsLetterCount(t: CharTables, s: string)
    ensures SumValues(LetterHistogram(t, s)) == LetterCount(t, s)
  {
    if s == [] {
      assert LetterPositions(t, s) == {};
    } else {
      var p, c := s[..|s| - 1], s[|s| - 1];
      assert s == p + [c];
      SumIsLetterCount(t, p);
      LetterPositionsSnoc(t, p, c);
      if t.isLetter(c) {
        SumValuesBump(LetterHistogram(t, p), t.toLower(c));
      }
    }
  }

  /** The same letter repeated n times is counted n times under its
      lower-case key, and nothing else is counted. */
  lemma {:induction false} RepeatedLetter(t: CharTables, c: char, n: nat)
    requires t.isLetter(c)
    ensures LetterHistogram(t, seq(n, _ => c)) == if n == 0 then map[] else map[t.toLower(c) := n]
  {
    if n > 0 {
      var s := seq(n, _ => c);
      assert s[..n - 1] == seq(n - 1, _ => c);
      RepeatedLetter(t, c, n - 1);
    }
  }

  /** Entries printed one per line: exactly the entries of m, each once. */
  ghost predicate ListsEachEntryOnce(m: Histogram, lines: seq<(char, nat)>) {
    && |lines| == |m|
    && (forall i :: 0 <= i < |lines| ==> lines[i].0 in m && m[lines[i].0] == lines[i].1)
    && (forall i, j :: 0 <= i < j < |lines| ==> lines[i].0 != lines[j].0)
    && (forall k :: k in m ==> exists i :: 0 <= i < |lines| && lines[i].0 == k)
  }

  /** Lines ordered by descending count. */
  ghost predicate NonIncreasing(lines: seq<(char, nat)>) {
    forall i, j :: 0 <= i < j < |lines| ==> lines[i].1 >= lines[j].1
  }

  /** A key whose count is larger than every other key's is printed on
      the first line. */
  lemma StrictMaximumPrintedFirst(m: Histogram, lines: seq<(char, nat)>, top: char)
    requires ListsEachEntryOnce(m, lines) && NonIncreasing(lines)
    requires top in m && forall k :: k in m && k != top ==> m[k] < m[top]
    ensures |lines| > 0 && lines[0] == (top, m[top])
  {
    var i :| 0 <= i < |lines| && lines[i].0 == top;
    assert lines[0].1 >= lines[i].1;
  }

  /** Some key of a non-empty histogram. */
  ghost function AnyKey(m: Histogram): (k: char)
    requires m != map[]
    ensures k in m
  {
    var k :| k in m; k
  }

  /** A key of a non-empty histogram holding the largest count: the larger
      of an arbitrary key and the top key of the rest. */
  ghost function TopKey(m: Histogram): char
    requires m != map[]
    decreases |m|
  {
    var k0 := AnyKey(m);
    var rest := m - {k0};
    assert |rest| < |m| by { assert rest.Keys == m.Keys - {k0}; }
    if rest == map[] then k0
    else
      var k1 := TopKey(rest);
      if k1 in m && m[k1] < m[k0] then k0 else k1
  }

  /** Every non-empty histogram has a key whose count is the largest. */
  lemma {:induction false} TopKeyIsMaximum(m: Histogram)
    requires m != map[]
    ensures TopKey(m) in m && forall j :: j in m ==> m[j] <= m[TopKey(m)]
    decreases |m|
  {
    var k0 := AnyKey(m);
    var rest := m - {k0};
    assert rest.Keys == m.Keys - {k0};
    if rest == map[] {
      forall j | j in m ensures m[j] <= m[k0] {
        assert j !in rest;
      }
    } else {
      TopKeyIsMaximum(rest);
      var k1 := TopKey(rest);
      forall j | j in m ensures m[j] <= m[TopKey(m)] {
        if j != k0 { assert j in rest; }
      }
    }
  }

  /** What holds after some entries of m have been emitted: rest holds the
      entries not yet emitted, lines the emitted ones, in descending order
      and none smaller than what is left. */
  ghost predicate SelectionState(m: Histogram, rest: Histogram, lines: seq<(char, nat)>) {
    && EmittedOnce(m, rest, lines)
    && (forall i, k :: 0 <= i < |lines| && k in rest ==> lines[i].1 >= rest[k])
    && NonIncreasing(lines)
    && |lines| + |rest| == |m|
  }

  /** lines and rest split the entries of m between them. */
  ghost predicate EmittedOnce(m: Histogram, rest: Histogram, lines: seq<(char, nat)>) {
    && rest.Keys <= m.Keys
    && (forall k :: k in rest ==> rest[k] == m[k])
    && (forall i :: 0 <= i < |lines| ==> lines[i].0 in m && lines[i].0 !in rest && m[lines[i].0] == lines[i].1)
    && (forall i, j :: 0 <= i < j < |lines| ==> lines[i].0 != lines[j].0)
    && (forall k :: k in m && k !in rest ==> exists i :: 0 <= i < |lines| && lines[i].0 == k)
  }

  lemma EmittedStep(m: Histogram, rest: Histogram, lines: seq<(char, nat)>, k: char)
    requires EmittedOnce(m, rest, lines) && k in rest
    ensures EmittedOnce(m, rest - {k}, lines + [(k, rest[k])])
  {
    var rest', lines' := rest - {k}, lines + [(k, rest[k])];
    assert forall i :: 0 <= i < |lines| ==> lines'[i] == lines[i];
    forall x | x in m && x !in rest'
      ensures exists i :: 0 <= i < |lines'| && lines'[i].0 == x
    {
      if x == k {
        assert lines'[|lines|].0 == x;
      } else {
        var i :| 0 <= i < |lines| && lines[i].0 == x;
        assert lines'[i].0 == x;
      }
    }
  }

  lemma SelectionStep(m: Histogram, rest: Histogram, lines: seq<(char, nat)>, k: char)
    requires SelectionState(m, rest, lines)
    requires k in rest && forall j :: j in rest ==> rest[j] <= rest[k]
    ensures SelectionState(m, rest - {k}, lines + [(k, rest[k])])
  {
    var rest', lines' := rest - {k}, lines + [(k, rest[k])];
    EmittedStep(m, rest, lines, k);
    assert rest'.Keys == rest.Keys - {k};
    assert forall i :: 0 <= i < |lines| ==> lines'[i] == lines[i];
  }

  /** PrintLetterCount: the entries of characterCount, one line each, in
      order of descending count (OrderByDescending). The order among equal
      counts is left open, as the source leaves it to the dictionary. */
  method PrintLetterCount(characterCount: Histogram) returns (lines: seq<(char, nat)>)
    ensures ListsEachEntryOnce(characterCount, lines)
    ensures NonIncreasing(lines)
  {
    var rest := characterCount;
    lines := [];
    while rest != map[]
      invariant SelectionState(characterCount, rest, lines)
      decreases |rest|
    {
      TopKeyIsMaximum(rest);
      var k :| k in rest && forall j :: j in rest ==> rest[j] <= rest[k];
      SelectionStep(characterCount, rest, lines, k);
      lines := lines + [(k, rest[k])];
      rest := rest - {k};
    }
  }
}
