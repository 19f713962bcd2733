/**
 The corpus term-frequency summary (`plot_10_most_common_words`): the rows of
 the document-term count matrix are added into one vector of per-term totals,
 the totals are paired with the vocabulary words, ordered by count (largest
 first, vocabulary order among equal counts) and cut to the first ten.
 The vocabulary and the count matrix come from the vectoriser and are inputs.
 */
module TermFrequency {
  import opened Ranking

  /** Length of the most-common list (the slice `[0:10]`). */
  const TopCount: nat := 10

  /** One `(word, count)` pair of the zipped vocabulary and totals. */
  datatype WordCount = WordCount(word: string, count: nat)

  /** Every row of the count matrix has one entry per vocabulary word. */
  ghost predicate Rectangular(rows: seq<seq<nat>>, width: nat) {
    forall i :: 0 <= i < |rows| ==> |rows[i]| == width
  }

  /** Occurrences of term `j` summed over all documents. */
  function ColumnSum(rows: seq<seq<nat>>, j: nat): nat
    requires forall i :: 0 <= i < |rows| ==> j < |rows[i]|
  {
    if rows == [] then 0 else ColumnSum(rows[..|rows| - 1], j) + rows[|rows| - 1][j]
  }

  /** The per-term corpus totals: column sums of the count matrix. */
  function CorpusTotals(rows: seq<seq<nat>>, width: nat): seq<nat>
    requires Rectangular(rows, width)
  {
    seq(width, j requires 0 <= j < width => ColumnSum(rows, j))
  }

  /** `total_counts += row`: element-wise addition of one document row. */
  method AddRow(totals: array<nat>, row: seq<nat>)
    requires totals.Length == |row|
    modifies totals
    ensures forall j :: 0 <= j < totals.Length ==> totals[j] == old(totals[j]) + row[j]
  {
    for j := 0 to totals.Length
      invariant forall k :: 0 <= k < j ==> totals[k] == old(totals[k]) + row[k]
      invariant forall k :: j <= k < totals.Length ==> totals[k] == old(totals[k])
    {
      totals[j] := totals[j] + row[j];
    }
  }

  /**
   The accumulation loop: a zero vector of vocabulary size, to which every
   document row is added in turn. Afterwards entry `j` is the number of
   occurrences of term `j` in the whole corpus.
   */
  method TotalCounts(rows: seq<seq<nat>>, width: nat) returns (totals: seq<nat>)
    requires Rectangular(rows, width)
    ensures |totals| == width
    ensures forall j :: 0 <= j < width ==> totals[j] == ColumnSum(rows, j)
  {
    var acc := new nat[width](_ => 0);
    for i := 0 to |rows|
      invariant acc[..] == CorpusTotals(rows[..i], width)
    {
      CorpusTotalsAppend(rows[..i], rows[i], width);
      AddRow(acc, rows[i]);
      assert rows[..i] + [rows[i]] == rows[..i + 1];
    }
    assert rows[..|rows|] == rows;
    totals := acc[..];
  }

  /** Sum of a vector. */
  function Sum(s: seq<nat>): nat {
    if s == [] then 0 else s[0] + Sum(s[1..])
  }

  /** Number of counted tokens in the whole matrix. */
  function TokenCount(rows: seq<seq<nat>>): nat {
    if rows == [] then 0 else TokenCount(rows[..|rows| - 1]) + Sum(rows[|rows| - 1])
  }

  lemma {:induction false} SumPointwise(a: seq<nat>, b: seq<nat>, c: seq<nat>)
    requires |a| == |b| == |c|
    requires forall j :: 0 <= j < |c| ==> c[j] == a[j] + b[j]
    ensures Sum(c) == Sum(a) + Sum(b)
  {
    if c != [] {
      SumPointwise(a[1..], b[1..], c[1..]);
    }
  }

  lemma {:induction false} SumZeros(c: seq<nat>)
    requires forall j :: 0 <= j < |c| ==> c[j] == 0
    ensures Sum(c) == 0
  {
    if c != [] {
      SumZeros(c[1..]);
    }
  }

  /** The totals account for every token of the matrix exactly once. */
  lemma {:induction false} CorpusTotalsSum(rows: seq<seq<nat>>, width: nat)
    requires Rectangular(rows, width)
    ensures Sum(CorpusTotals(rows, width)) == TokenCount(rows)
  {
    if rows == [] {
      SumZeros(CorpusTotals(rows, width));
    } else {
      var init := rows[..|rows| - 1];
      CorpusTotalsSum(init, width);
      SumPointwise(CorpusTotals(init, width), rows[|rows| - 1], CorpusTotals(rows, width));
    }
  }

  /** Adding one more document raises each total by exactly that document's count. */
  lemma CorpusTotalsAppend(rows: seq<seq<nat>>, row: seq<nat>, width: nat)
    requires Rectangular(rows, width) && |row| == width
    ensures Rectangular(rows + [row], width)
    ensures forall j :: 0 <= j < width ==>
              CorpusTotals(rows + [row], width)[j] == CorpusTotals(rows, width)[j] + row[j]
  {
    assert (rows + [row])[..|rows|] == rows;
  }

  /** The sort key `lambda x: x[1]`. */
  function CountKey(e: WordCount): int {
    e.count
  }

  /**
   The two list comprehensions `[w[0] for w in count_dict]` and
   `[w[1] for w in count_dict]`: the words and the counts of a list of pairs,
   position by position.
   */
  function Unzip(pairs: seq<WordCount>): (r: (seq<string>, seq<nat>))
    ensures |r.0| == |pairs| && |r.1| == |pairs|
    ensures forall k :: 0 <= k < |pairs| ==> pairs[k] == WordCount(r.0[k], r.1[k])
  {
    (seq(|pairs|, k requires 0 <= k < |pairs| => pairs[k].word),
     seq(|pairs|, k requires 0 <= k < |pairs| => pairs[k].count))
  }

  /** `zip(words, total_counts)`: unzipping the pairs gives back both lists. */
  function Zip(words: seq<string>, totals: seq<nat>): (r: seq<WordCount>)
    requires |words| == |totals|
    ensures |r| == |words|
    ensures Unzip(r) == (words, totals)
  {
    var r := seq(|words|, j requires 0 <= j < |words| => WordCount(words[j], totals[j]));
    assert Unzip(r).0 == words;
    assert Unzip(r).1 == totals;
    r
  }

  /** `sorted(zip(words, totals), key=count, reverse=True)[0:10]`. */
  function MostCommon(words: seq<string>, totals: seq<nat>): (top: seq<WordCount>)
    requires |words| == |totals|
    ensures |top| == Min(TopCount, |words|)
  {
    SortDesc(Zip(words, totals), CountKey)[..Min(TopCount, |words|)]
  }

  /**
   Every entry of the most-common list is a vocabulary word paired with its
   own total, and no pair is reported more often than it occurs.
   */
  lemma MostCommonEntries(words: seq<string>, totals: seq<nat>)
    requires |words| == |totals|
    ensures multiset(MostCommon(words, totals)) <= multiset(Zip(words, totals))
    ensures forall k :: 0 <= k < |MostCommon(words, totals)| ==>
              exists j :: 0 <= j < |words| && MostCommon(words, totals)[k] == WordCount(words[j], totals[j])
  {
    var z := Zip(words, totals);
    var s := SortDesc(z, CountKey);
    var top := MostCommon(words, totals);
    PrefixElements(s, |top|);
    forall k | 0 <= k < |top|
      ensures exists j :: 0 <= j < |words| && top[k] == WordCount(words[j], totals[j])
    {
      assert top[k] in multiset(z);
      var j :| 0 <= j < |z| && z[j] == top[k];
    }
  }

  lemma PrefixElements<T>(s: seq<T>, m: nat)
    requires m <= |s|
    ensures multiset(s[..m]) <= multiset(s)
  {
    assert s == s[..m] + s[m..];
  }

  /**
   The list runs from the largest count down, and nothing left out has a
   larger count than the last entry kept.
   */
  lemma MostCommonRanked(words: seq<string>, totals: seq<nat>)
    requires |words| == |totals|
    ensures forall a, b :: 0 <= a < b < |MostCommon(words, totals)| ==>
              MostCommon(words, totals)[a].count >= MostCommon(words, totals)[b].count
    ensures forall j :: 0 <= j < |words| && WordCount(words[j], totals[j]) !in MostCommon(words, totals) ==>
              totals[j] <= MostCommon(words, totals)[|MostCommon(words, totals)| - 1].count
  {
    var z := Zip(words, totals);
    var s := SortDesc(z, CountKey);
    var m := Min(TopCount, |words|);
    var top := MostCommon(words, totals);
    forall j | 0 <= j < |words| && z[j] !in top
      ensures totals[j] <= top[m - 1].count
    {
      assert z[j] in multiset(s);
      var p :| 0 <= p < |s| && s[p] == z[j];
      assert p >= m;
      assert CountKey(s[m - 1]) >= CountKey(s[p]);
    }
  }

  /**
   Ties keep vocabulary order: for every count, the entries kept with that
   count are the first words of the vocabulary having it, in vocabulary order.
   */
  lemma MostCommonStable(words: seq<string>, totals: seq<nat>, c: nat)
    requires |words| == |totals|
    ensures WithKey(MostCommon(words, totals), CountKey, c) <= WithKey(Zip(words, totals), CountKey, c)
  {
    var z := Zip(words, totals);
    SortDescStable(z, CountKey, c);
    WithKeyOfPrefix(SortDesc(z, CountKey), Min(TopCount, |words|), CountKey, c);
  }

  /**
   `plot_10_most_common_words` without its plotting: the totals are
   accumulated, ranked, and split into the word list and the count list
   handed to the bar chart.
   */
  method PlotTenMostCommonWords(rows: seq<seq<nat>>, words: seq<string>)
    returns (topWords: seq<string>, counts: seq<nat>)
    requires Rectangular(rows, |words|)
    ensures |topWords| == |counts| == Min(TopCount, |words|)
    ensures forall k :: 0 <= k < |topWords| ==>
              WordCount(topWords[k], counts[k]) == MostCommon(words, CorpusTotals(rows, |words|))[k]
    ensures forall k :: 0 <= k < |topWords| ==>
              exists j :: 0 <= j < |words| && topWords[k] == words[j] && counts[k] == ColumnSum(rows, j)
  {
    var totals := TotalCounts(rows, |words|);
    assert totals == CorpusTotals(rows, |words|);
    var top := MostCommon(words, totals);
    topWords, counts := Unzip(top).0, Unzip(top).1;
    MostCommonEntries(words, totals);
  }
}
