/**
 The title normaliser of the NIPS trend analysis: every title of the paper
 table loses its `,` `.` `!` `?` characters (a regular-expression
 substitution with an empty replacement) and is then lower-cased. The
 processed titles are finally joined by single spaces to feed the word cloud.
 */
module TitleNormalizer {
  import opened SpaceJoin

  /** The four characters of the character class `[,\.!?]`. */
  predicate IsPunctuation(c: char) {
    c == ',' || c == '.' || c == '!' || c == '?'
  }

  /** ASCII lower-casing of one character; every other character is kept. */
  function ToLower(c: char): (d: char)
    ensures 'A' <= c <= 'Z' ==> 'a' <= d <= 'z' && d as int - c as int == 32
    ensures !('A' <= c <= 'Z') ==> d == c
  {
    if 'A' <= c <= 'Z' then (c as int - 'A' as int + 'a' as int) as char else c
  }

  /** The substitution `re.sub('[,\.!?]', '', x)`: drop every punctuation character. */
  function StripPunctuation(s: string): (r: string)
    ensures |r| <= |s|
    ensures forall k :: 0 <= k < |r| ==> !IsPunctuation(r[k])
  {
    if s == [] then []
    else (if IsPunctuation(s[0]) then [] else [s[0]]) + StripPunctuation(s[1..])
  }

  /**
   `str.lower()` on one string, restricted to ASCII letters: every position
   keeps its place, capitals become small letters, and nothing else changes.
   */
  function Lower(s: string): (r: string)
    ensures |r| == |s|
    ensures forall k :: 0 <= k < |r| ==> !('A' <= r[k] <= 'Z')
    ensures forall k :: 0 <= k < |s| && 'A' <= s[k] <= 'Z' ==> r[k] as int == s[k] as int + 32
    ensures forall k :: 0 <= k < |s| && !('A' <= s[k] <= 'Z') ==> r[k] == s[k]
  {
    seq(|s|, k requires 0 <= k < |s| => ToLower(s[k]))
  }

  /** One processed title: punctuation removed first, then lower-cased. */
  function NormalizeTitle(s: string): (r: string)
    ensures |r| <= |s|
    ensures forall k :: 0 <= k < |r| ==> !IsPunctuation(r[k])
    ensures forall k :: 0 <= k < |r| ==> !('A' <= r[k] <= 'Z')
  {
    Lower(StripPunctuation(s))
  }

  /**
   The `map` of the substitution over the title column: one entry per title,
   none longer than its title, none holding punctuation.
   */
  function StripColumn(titles: seq<string>): (r: seq<string>)
    ensures |r| == |titles|
    ensures forall i :: 0 <= i < |r| ==> r[i] == StripPunctuation(titles[i])
    ensures forall i :: 0 <= i < |r| ==> |r[i]| <= |titles[i]|
    ensures forall i, k :: 0 <= i < |r| && 0 <= k < |r[i]| ==> !IsPunctuation(r[i][k])
  {
    seq(|titles|, i requires 0 <= i < |titles| => StripPunctuation(titles[i]))
  }

  /**
   The `.str.lower()` over the column: one entry per row, each as long as
   the row's string, none holding an ASCII capital.
   */
  function LowerColumn(column: seq<string>): (r: seq<string>)
    ensures |r| == |column|
    ensures forall i :: 0 <= i < |r| ==> r[i] == Lower(column[i])
    ensures forall i :: 0 <= i < |r| ==> |r[i]| == |column[i]|
    ensures forall i, k :: 0 <= i < |r| && 0 <= k < |r[i]| ==> !('A' <= r[i][k] <= 'Z')
  {
    seq(|column|, i requires 0 <= i < |column| => Lower(column[i]))
  }

  /**
   The `title_processed` column: one entry per paper, in row order, each the
   processed form of the title in the same row.
   */
  function NormalizeColumn(titles: seq<string>): (processed: seq<string>)
    ensures |processed| == |titles|
    ensures forall i :: 0 <= i < |titles| ==> processed[i] == NormalizeTitle(titles[i])
  {
    LowerColumn(StripColumn(titles))
  }

  /**
   The positions, from `from` on, of the characters that survive the
   substitution, in increasing order.
   */
  function KeptIndices(s: string, from: nat): (ks: seq<nat>)
    requires from <= |s|
    ensures forall k :: 0 <= k < |ks| ==> from <= ks[k] < |s| && !IsPunctuation(s[ks[k]])
    ensures forall a, b :: 0 <= a < b < |ks| ==> ks[a] < ks[b]
    ensures forall i :: from <= i < |s| && !IsPunctuation(s[i]) ==> i in ks
    decreases |s| - from
  {
    if from == |s| then []
    else (if IsPunctuation(s[from]) then [] else [from]) + KeptIndices(s, from + 1)
  }

  lemma {:induction false} StripIsKeptIndices(s: string, from: nat)
    requires from <= |s|
    ensures |StripPunctuation(s[from..])| == |KeptIndices(s, from)|
    ensures forall k :: 0 <= k < |KeptIndices(s, from)| ==>
              StripPunctuation(s[from..])[k] == s[KeptIndices(s, from)[k]]
    decreases |s| - from
  {
    if from < |s| {
      StripIsKeptIndices(s, from + 1);
      assert s[from..][1..] == s[from + 1..];
    }
  }

  /**
   A processed title is the original with exactly the four punctuation
   characters deleted: every other character, whitespace included, survives
   lower-cased and in its original order, and nothing else is produced.
   */
  lemma NormalizeKeepsEverythingElse(s: string)
    ensures |NormalizeTitle(s)| == |KeptIndices(s, 0)|
    ensures forall k :: 0 <= k < |NormalizeTitle(s)| ==>
              NormalizeTitle(s)[k] == ToLower(s[KeptIndices(s, 0)[k]])
    ensures forall i :: 0 <= i < |s| ==> (!IsPunctuation(s[i]) <==> i in KeptIndices(s, 0))
  {
    StripIsKeptIndices(s, 0);
    assert s[0..] == s;
  }

  lemma {:induction false} StripWithoutPunctuation(s: string)
    requires forall k :: 0 <= k < |s| ==> !IsPunctuation(s[k])
    ensures StripPunctuation(s) == s
  {
    if s != [] {
      StripWithoutPunctuation(s[1..]);
    }
  }

  /** Processing an already processed title changes nothing. */
  lemma NormalizeIdempotent(s: string)
    ensures NormalizeTitle(NormalizeTitle(s)) == NormalizeTitle(s)
  {
    var r := NormalizeTitle(s);
    StripWithoutPunctuation(r);
    assert Lower(r) == r;
  }

  lemma {:induction false} StripConcat(a: string, b: string)
    ensures StripPunctuation(a + b) == StripPunctuation(a) + StripPunctuation(b)
  {
    if a != [] {
      assert (a + b)[1..] == a[1..] + b;
      StripConcat(a[1..], b);
    } else {
      assert a + b == b;
    }
  }

  lemma LowerConcat(a: string, b: string)
    ensures Lower(a + b) == Lower(a) + Lower(b)
  {
    assert forall k :: 0 <= k < |a| + |b| ==> Lower(a + b)[k] == (Lower(a) + Lower(b))[k];
  }

  /**
   With ASCII lower-casing the processing works character by character: a
   title split anywhere is processed as its two parts, and one character
   becomes nothing when it is punctuation and its lower-case form otherwise.
   */
  lemma NormalizeConcat(a: string, b: string)
    ensures NormalizeTitle(a + b) == NormalizeTitle(a) + NormalizeTitle(b)
    ensures forall c :: NormalizeTitle([c]) == if IsPunctuation(c) then [] else [ToLower(c)]
  {
    StripConcat(a, b);
    LowerConcat(StripPunctuation(a), StripPunctuation(b));
    forall c ensures NormalizeTitle([c]) == if IsPunctuation(c) then [] else [ToLower(c)] {
      assert [c][1..] == [];
      assert StripPunctuation([c]) == if IsPunctuation(c) then [] else [c];
    }
  }

  /**
   The word-cloud input built from processed titles holds no punctuation
   and no upper-case letter.
   */
  lemma {:induction false} JoinOfProcessedIsClean(titles: seq<string>)
    ensures forall k :: 0 <= k < |Join(NormalizeColumn(titles))| ==>
              !IsPunctuation(Join(NormalizeColumn(titles))[k]) &&
              !('A' <= Join(NormalizeColumn(titles))[k] <= 'Z')
  {
    if |titles| > 1 {
      JoinOfProcessedIsClean(titles[1..]);
      assert NormalizeColumn(titles)[1..] == NormalizeColumn(titles[1..]);
    }
  }
}
