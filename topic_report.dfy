/**
 The topic reporter (`print_topics`): for each row of the fitted topic-term
 weight matrix, in topic order, the indices of the `n` largest weights are
 taken with `topic.argsort()[:-n-1:-1]` (ascending argsort read backwards),
 mapped to vocabulary words and printed under a `Topic #<index>:` header.
 The weight matrix comes from the topic model and is an input; weights are
 modelled as integers, only their order matters.
 */
module TopicReport {
  import opened Ranking
  import opened SpaceJoin

  /**
   What `argsort` promises: a permutation of the indices of `w` along which
   the weights never decrease. The order among equal weights is not promised.
   */
  ghost predicate IsArgsort(w: seq<int>, p: seq<nat>) {
    && |p| == |w|
    && (forall k :: 0 <= k < |p| ==> p[k] < |w|)
    && (forall i :: 0 <= i < |w| ==> i in p)
    && Distinct(p)
    && (forall a, b :: 0 <= a < b < |p| ==> w[p[a]] <= w[p[b]])
  }

  /** `range(n)`. */
  function Indices(n: nat): seq<nat> {
    seq(n, i requires 0 <= i < n => i)
  }

  /** Sort key that puts small weights first. */
  function AscendingKey(w: seq<int>): nat -> int {
    (i: nat) => if i < |w| then -w[i] else 0
  }

  lemma SortedIndicesAreArgsort(w: seq<int>)
    ensures IsArgsort(w, SortDesc(Indices(|w|), AscendingKey(w)))
  {
    var ids := Indices(|w|);
    var p := SortDesc(ids, AscendingKey(w));
    SortDescDistinct(ids, AscendingKey(w));
    forall k | 0 <= k < |p| ensures p[k] < |w| {
      assert p[k] in multiset(ids);
    }
    forall i | 0 <= i < |w| ensures i in p {
      assert ids[i] in multiset(p);
    }
    forall a, b | 0 <= a < b < |p| ensures w[p[a]] <= w[p[b]] {
      assert AscendingKey(w)(p[a]) >= AscendingKey(w)(p[b]);
    }
  }

  /**
   One argsort of `w`: the indices ordered by ascending weight, equal weights
   in index order. Any other valid argsort may order ties differently.
   */
  function Argsort(w: seq<int>): (p: seq<nat>)
    ensures IsArgsort(w, p)
  {
    SortedIndicesAreArgsort(w);
    SortDesc(Indices(|w|), AscendingKey(w))
  }

  /** Python's normalisation of a slice bound when the step is negative. */
  function ClampDown(i: int, len: nat): (j: int)
    ensures -1 <= j < len
    ensures 0 <= i < len ==> j == i
    ensures -(len as int) <= i < 0 ==> j == i + len
    ensures i < -(len as int) ==> j == -1
    ensures i >= len ==> j == len - 1
  {
    if i < 0 then (if i + len < 0 then -1 else i + len)
    else if i >= len then len - 1
    else i
  }

  /**
   Python's `p[start:stop:-1]`: with both bounds normalised, the entries from
   index `start` down to just above index `stop`; empty when `start` does not
   lie above `stop`.
   */
  function ReverseSlice<T>(p: seq<T>, start: int, stop: int): (r: seq<T>)
    ensures |r| == if ClampDown(stop, |p|) < ClampDown(start, |p|)
                   then ClampDown(start, |p|) - ClampDown(stop, |p|) else 0
    ensures forall k :: 0 <= k < |r| ==> r[k] == p[ClampDown(start, |p|) - k]
  {
    var hi := ClampDown(start, |p|);
    var lo := ClampDown(stop, |p|);
    if hi <= lo then [] else seq(hi - lo, k requires 0 <= k < hi - lo => p[hi - k])
  }

  /**
   `topic.argsort()[:-n_top_words - 1:-1]`: the last `min(n, |p|)` entries
   of `p`, last one first.
   */
  function TopIndices(p: seq<nat>, n: nat): (ids: seq<nat>)
    ensures |ids| == Min(n, |p|)
    ensures forall k :: 0 <= k < |ids| ==> ids[k] == p[|p| - 1 - k]
  {
    ReverseSlice(p, -1, -(n as int) - 1)
  }

  /**
   The top-`n` selection: `min(n, |w|)` distinct indices of `w`, by
   non-increasing weight, such that no index left out weighs more than the
   last one kept.
   */
  ghost predicate IsTopN(w: seq<int>, ids: seq<nat>, n: nat) {
    && |ids| == Min(n, |w|)
    && (forall k :: 0 <= k < |ids| ==> ids[k] < |w|)
    && Distinct(ids)
    && (forall a, b :: 0 <= a < b < |ids| ==> w[ids[a]] >= w[ids[b]])
    && (|ids| > 0 ==> forall i :: 0 <= i < |w| && i !in ids ==> w[i] <= w[ids[|ids| - 1]])
  }

  /** Whatever order `argsort` gives to ties, the slice selects the top `n` indices. */
  lemma TopIndicesAreTopN(w: seq<int>, p: seq<nat>, n: nat)
    requires IsArgsort(w, p)
    ensures IsTopN(w, TopIndices(p, n), n)
  {
    var ids := TopIndices(p, n);
    var m := |ids|;
    forall j | |p| - m <= j < |p| ensures p[j] in ids {
      assert ids[|p| - 1 - j] == p[j];
    }
    forall i | 0 <= i < |w| && i !in ids && m > 0
      ensures w[i] <= w[ids[m - 1]]
    {
      assert i in p;
      var j :| 0 <= j < |p| && p[j] == i;
      assert j < |p| - m;
      assert ids[m - 1] == p[|p| - m];
    }
  }

  /** `[words[i] for i in ids]`: the word of each index, in the order of the indices. */
  function WordsAt(words: seq<string>, ids: seq<nat>): (r: seq<string>)
    requires forall k :: 0 <= k < |ids| ==> ids[k] < |words|
    ensures |r| == |ids|
    ensures forall k :: 0 <= k < |r| ==> r[k] == words[ids[k]]
  {
    seq(|ids|, k requires 0 <= k < |ids| => words[ids[k]])
  }

  /** The vocabulary words of a top-`n` selection of the weights, heaviest first. */
  function TopicTerms(words: seq<string>, w: seq<int>, n: nat): (terms: seq<string>)
    requires |w| == |words|
    ensures exists ids :: IsTopN(w, ids, n) && terms == WordsAt(words, ids)
  {
    TopIndicesAreTopN(w, Argsort(w), n);
    WordsAt(words, TopIndices(Argsort(w), n))
  }

  /**
   Decimal digits of `n`, as `%d` prints them: one digit below ten, and no
   leading zero otherwise.
   */
  function Decimal(n: nat): (s: string)
    ensures |s| > 0
    ensures forall k :: 0 <= k < |s| ==> '0' <= s[k] <= '9'
    ensures |s| == 1 <==> n < 10
    ensures |s| == 1 || s[0] != '0'
  {
    if n < 10 then [('0' as int + n) as char]
    else Decimal(n / 10) + [('0' as int + n % 10) as char]
  }

  /** The number a string of decimal digits stands for. */
  function DecimalValue(s: string): nat
    requires forall k :: 0 <= k < |s| ==> '0' <= s[k] <= '9'
  {
    if s == [] then 0
    else DecimalValue(s[..|s| - 1]) * 10 + (s[|s| - 1] as int - '0' as int)
  }

  /** `%d` loses nothing: the printed digits read back as the topic index. */
  lemma {:induction false} DecimalRoundTrip(n: nat)
    ensures DecimalValue(Decimal(n)) == n
  {
    if n >= 10 {
      DecimalRoundTrip(n / 10);
      var s := Decimal(n);
      assert s[..|s| - 1] == Decimal(n / 10);
    } else {
      assert Decimal(n)[..0] == [];
    }
  }

  /** The two lines printed for one topic. */
  datatype TopicLine = TopicLine(header: string, terms: string)

  /**
   `"\nTopic #%d:" % topic_idx`: the fixed prefix, digits that read back as
   the topic index, and a closing colon.
   */
  function Header(t: nat): (h: string)
    ensures |h| >= 10
    ensures h[..8] == "\nTopic #" && h[|h| - 1] == ':'
    ensures forall k :: 8 <= k < |h| - 1 ==> '0' <= h[k] <= '9'
    ensures DecimalValue(h[8..|h| - 1]) == t
    ensures |h| == 10 || h[8] != '0'
  {
    var prefix, d := "\nTopic #", Decimal(t);
    DecimalRoundTrip(t);
    var h := prefix + d + ":";
    assert |prefix| == 8;
    assert h[..8] == prefix;
    assert h[8..|h| - 1] == d;
    assert h[8] == d[0];
    h
  }

  /**
   `terms` is the space-joined list of the words of some top-`n` selection
   of the weights `w`.
   */
  ghost predicate ListsTopN(words: seq<string>, w: seq<int>, n: nat, terms: string)
    requires |w| == |words|
  {
    exists ids :: IsTopN(w, ids, n) && terms == Join(WordsAt(words, ids))
  }

  /** The two lines printed for topic `t` with weights `w`. */
  function TopicLineOf(words: seq<string>, w: seq<int>, t: nat, n: nat): (line: TopicLine)
    requires |w| == |words|
    ensures line.header == Header(t)
    ensures ListsTopN(words, w, n, line.terms)
  {
    TopicLine(Header(t), Join(TopicTerms(words, w, n)))
  }

  /**
   `print_topics`: one entry per topic, in topic order; entry `t` carries the
   header of topic `t` and, separated by single spaces, the words of a top-`n`
   selection of that topic's weights.
   */
  function PrintTopics(words: seq<string>, components: seq<seq<int>>, n: nat): (lines: seq<TopicLine>)
    requires forall t :: 0 <= t < |components| ==> |components[t]| == |words|
    ensures |lines| == |components|
    ensures forall t :: 0 <= t < |components| ==> lines[t].header == Header(t)
    ensures forall t :: 0 <= t < |components| ==> ListsTopN(words, components[t], n, lines[t].terms)
  {
    var lines := seq(|components|, t requires 0 <= t < |components| => TopicLineOf(words, components[t], t, n));
    assert forall t :: 0 <= t < |components| ==> lines[t] == TopicLineOf(words, components[t], t, n);
    lines
  }
}
