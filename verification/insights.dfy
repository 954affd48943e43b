/**
 * The insights page's `buildCounts`:
 * - count every non-empty word across the arrays that are present;
 * - sort the counts in descending order (a stable sort, so ties keep the
 *   order in which the words were first seen);
 * - keep the first five.
 *
 * The counts live in a map, together with the keys in first-seen order.
 */
module Insights {

  import opened Wrappers

  /** The words the two loops visit: every present array, in order. */
  function Flatten(items: seq<Option<seq<string>>>): seq<string>
  {
    if |items| == 0 then []
    else Flatten(items[..|items| - 1]) + (match items[|items| - 1] case None => [] case Some(arr) => arr)
  }

  /** How often `w` occurs in `s`. */
  function CountIn(s: seq<string>, w: string): nat
  {
    if |s| == 0 then 0 else CountIn(s[..|s| - 1], w) + (if s[|s| - 1] == w then 1 else 0)
  }

  /** The distinct non-empty words of the input. */
  function WordSet(items: seq<Option<seq<string>>>): set<string> {
    set w | w in Flatten(items) && w != ""
  }

  predicate Distinct<T(==)>(s: seq<T>) {
    forall i, j :: 0 <= i < j < |s| ==> s[i] != s[j]
  }

  lemma CountInSnoc(s: seq<string>, x: string, w: string)
    ensures CountIn(s + [x], w) == CountIn(s, w) + (if x == w then 1 else 0)
  {
    assert (s + [x])[..|s|] == s;
  }

  /** A word that does not occur has count 0. */
  lemma {:induction false} CountInAbsent(s: seq<string>, w: string)
    requires w !in s
    ensures CountIn(s, w) == 0
  {
    if |s| > 0 {
      assert w !in s[..|s| - 1];
      CountInAbsent(s[..|s| - 1], w);
    }
  }

  lemma FlattenSnoc(items: seq<Option<seq<string>>>, i: nat)
    requires i < |items|
    ensures Flatten(items[..i + 1]) == Flatten(items[..i]) + (match items[i] case None => [] case Some(arr) => arr)
  {
    assert items[..i + 1][..i] == items[..i];
  }

  /**
   * `keys` and `counts` tally `seen`: the keys are distinct and are the
   * counted words, a word is counted exactly when it is non-empty and was
   * seen, and its count is the number of times it was seen.
   */
  ghost predicate Tallies(keys: seq<string>, counts: map<string, nat>, seen: seq<string>) {
    && Distinct(keys)
    && (forall w :: w in counts <==> w in keys)
    && (forall w :: w in counts <==> w in seen && w != "")
    && (forall w :: w in counts ==> counts[w] == CountIn(seen, w))
  }

  /** The loop body: `counts[word] = (counts[word] ?? 0) + 1` for a non-empty word. */
  function AddWord(keys: seq<string>, counts: map<string, nat>, word: string): (r: (seq<string>, map<string, nat>))
  {
    if word == "" then (keys, counts)
    else if word in counts then (keys, counts[word := counts[word] + 1])
    else (keys + [word], counts[word := 1])
  }

  /** One more word seen keeps the tally. */
  lemma AddWordTallies(keys: seq<string>, counts: map<string, nat>, seen: seq<string>, word: string)
    requires Tallies(keys, counts, seen)
    ensures Tallies(AddWord(keys, counts, word).0, AddWord(keys, counts, word).1, seen + [word])
  {
    var (keys', counts') := AddWord(keys, counts, word);
    forall w | w in counts'
      ensures counts'[w] == CountIn(seen + [word], w)
    {
      CountInSnoc(seen, word, w);
      if w == word && w !in counts {
        CountInAbsent(seen, w);
      }
    }
  }

  /**
   * The counting loops: the keys in first-seen order and the count of each.
   * A word is counted exactly when it is non-empty and occurs somewhere,
   * and its count is the number of its occurrences.
   */
  method BuildCounts(items: seq<Option<seq<string>>>) returns (keys: seq<string>, counts: map<string, nat>)
    ensures Distinct(keys)
    ensures forall w :: w in counts <==> w in keys
    ensures forall w :: w in keys <==> w in WordSet(items)
    ensures forall w :: w in counts ==> counts[w] == CountIn(Flatten(items), w)
  {
    keys := [];
    counts := map[];
    var i := 0;
    while i < |items|
      invariant 0 <= i <= |items|
      invariant Tallies(keys, counts, Flatten(items[..i]))
    {
      FlattenSnoc(items, i);
      if items[i].Some? {
        var arr := items[i].value;
        var j := 0;
        assert Flatten(items[..i]) + arr[..0] == Flatten(items[..i]);
        while j < |arr|
          invariant 0 <= j <= |arr|
          invariant Tallies(keys, counts, Flatten(items[..i]) + arr[..j])
        {
          AddWordTallies(keys, counts, Flatten(items[..i]) + arr[..j], arr[j]);
          assert Flatten(items[..i]) + arr[..j] + [arr[j]] == Flatten(items[..i]) + arr[..j + 1];
          keys, counts := AddWord(keys, counts, arr[j]).0, AddWord(keys, counts, arr[j]).1;
          j := j + 1;
        }
        assert Flatten(items[..i]) + arr[..|arr|] == Flatten(items[..i + 1]);
      } else {
        assert Flatten(items[..i]) == Flatten(items[..i + 1]);
      }
      i := i + 1;
    }
    assert items[..|items|] == items;
  }

  /** A word and its count. */
  datatype Tally = Tally(word: string, count: nat)

  predicate Descending(s: seq<Tally>) {
    forall i, j :: 0 <= i < j < |s| ==> s[i].count >= s[j].count
  }

  /** Each tally counts at least as much as the next one. */
  predicate StepsDown(s: seq<Tally>) {
    forall i :: 0 < i < |s| ==> s[i - 1].count >= s[i].count
  }

  /** Descending step by step is descending throughout. */
  lemma {:induction false} StepsDownDescending(s: seq<Tally>)
    requires StepsDown(s)
    ensures Descending(s)
  {
    if |s| > 1 {
      var init := s[..|s| - 1];
      StepsDownDescending(init);
      forall i | 0 <= i < |s| - 1
        ensures s[i].count >= s[|s| - 1].count
      {
        assert init[i] == s[i] && init[|s| - 2] == s[|s| - 2];
      }
    }
  }

  /** Insertion after every tally with at least the same count, which keeps the sort stable. */
  function Insert(x: Tally, s: seq<Tally>): (r: seq<Tally>)
    requires StepsDown(s)
    ensures StepsDown(r)
    ensures multiset(r) == multiset(s) + multiset{x}
    ensures |r| == |s| + 1
    ensures r[0] == x || (|s| > 0 && r[0] == s[0])
  {
    if |s| == 0 then [x]
    else if s[0].count >= x.count then
      assert s == [s[0]] + s[1..];
      [s[0]] + Insert(x, s[1..])
    else [x] + s
  }

  /** `.sort((a, b) => b[1] - a[1])`: the tallies by descending count, earlier ones first among equals. */
  function SortDescending(s: seq<Tally>): (r: seq<Tally>)
    ensures StepsDown(r)
    ensures multiset(r) == multiset(s)
  {
    if |s| == 0 then []
    else
      assert s == s[..|s| - 1] + [s[|s| - 1]];
      Insert(s[|s| - 1], SortDescending(s[..|s| - 1]))
  }

  /** How many words the insights page reports. */
  const TopCount: nat := 5

  /** A distinct sequence has every element once. */
  lemma {:induction false} DistinctOnce<T>(s: seq<T>, x: T)
    requires Distinct(s)
    ensures multiset(s)[x] <= 1
  {
    if |s| > 0 {
      var init := s[..|s| - 1];
      assert s == init + [s[|s| - 1]];
      DistinctOnce(init, x);
      if x == s[|s| - 1] {
        assert x !in init;
      }
    }
  }

  /** A reordering of a distinct sequence is distinct. */
  lemma PermutationKeepsDistinct<T>(a: seq<T>, b: seq<T>)
    requires Distinct(a) && multiset(a) == multiset(b)
    ensures Distinct(b)
  {
    forall i, j | 0 <= i < j < |b|
      ensures b[i] != b[j]
    {
      if b[i] == b[j] {
        assert b == b[..j] + [b[j]] + b[j + 1..];
        assert b[i] in multiset(b[..j]);
        assert multiset(b)[b[j]] >= 2;
        DistinctOnce(a, b[j]);
      }
    }
  }

  /** A distinct sequence has as many elements as its set. */
  lemma {:induction false} DistinctCardinality<T>(s: seq<T>)
    requires Distinct(s)
    ensures |set x | x in s| == |s|
  {
    if |s| > 0 {
      var init := s[..|s| - 1];
      var last := s[|s| - 1];
      DistinctCardinality(init);
      assert (set x | x in s) == (set x | x in init) + {last};
      assert last !in (set x | x in init);
    }
  }

  /** The tallies of the counted words, in first-seen order. */
  function TalliesOf(keys: seq<string>, counts: map<string, nat>): (t: seq<Tally>)
    requires forall w :: w in keys ==> w in counts
    ensures |t| == |keys|
    ensures forall i :: 0 <= i < |keys| ==> t[i] == Tally(keys[i], counts[keys[i]])
  {
    seq(|keys|, i requires 0 <= i < |keys| => Tally(keys[i], counts[keys[i]]))
  }

  /**
   * `sorted` arranges the tallies of the distinct `keys` in descending
   * order: each key once, with its count, and nothing else.
   */
  ghost predicate ArrangesTallies(keys: seq<string>, counts: map<string, nat>, sorted: seq<Tally>) {
    && (forall w :: w in keys ==> w in counts)
    && Descending(sorted)
    && |sorted| == |keys|
    && (forall k :: 0 <= k < |sorted| ==> sorted[k].word in keys && sorted[k].count == counts[sorted[k].word])
    && (forall i, j :: 0 <= i < j < |sorted| ==> sorted[i].word != sorted[j].word)
    && (forall p :: 0 <= p < |keys| ==> exists k :: 0 <= k < |sorted| && sorted[k].word == keys[p])
  }

  /** Sorting the tallies of distinct keys arranges them. */
  lemma SortedTallies(keys: seq<string>, counts: map<string, nat>)
    requires Distinct(keys) && forall w :: w in keys ==> w in counts
    ensures ArrangesTallies(keys, counts, SortDescending(TalliesOf(keys, counts)))
  {
    var tallies := TalliesOf(keys, counts);
    var sorted := SortDescending(tallies);
    StepsDownDescending(sorted);
    assert Distinct(tallies);
    PermutationKeepsDistinct(tallies, sorted);
    forall k | 0 <= k < |sorted|
      ensures sorted[k].word in keys && sorted[k].count == counts[sorted[k].word]
    {
      assert sorted[k] in multiset(tallies);
    }
    assert |multiset(sorted)| == |multiset(tallies)|;
    forall p | 0 <= p < |keys|
      ensures exists k :: 0 <= k < |sorted| && sorted[k].word == keys[p]
    {
      assert tallies[p] in multiset(sorted);
    }
  }

  /** The first `TopCount` elements, or all of them when there are fewer. */
  function TakeTop(s: seq<Tally>): (r: seq<Tally>)
    ensures |r| == if |s| < TopCount then |s| else TopCount
    ensures forall i :: 0 <= i < |r| ==> r[i] == s[i]
  {
    if |s| <= TopCount then s else s[..TopCount]
  }

  /** In a descending sequence, nothing past the cut counts more than the last element kept. */
  lemma PastCutAtMostLast(s: seq<Tally>, k: nat)
    requires Descending(s)
    requires TopCount <= k < |s|
    ensures s[k].count <= TakeTop(s)[|TakeTop(s)| - 1].count
  {
    assert TakeTop(s)[TopCount - 1] == s[TopCount - 1];
  }

  /**
   * `top` is a top of the keys: as many as there are keys up to five, each
   * a key with its count, no key twice, descending, and no key left out
   * counts more than the last one kept.
   */
  ghost predicate TopOfKeys(keys: seq<string>, counts: map<string, nat>, top: seq<Tally>) {
    && (forall w :: w in keys ==> w in counts)
    && |top| == (if |keys| < TopCount then |keys| else TopCount)
    && (forall i :: 0 <= i < |top| ==> top[i].word in keys && top[i].count == counts[top[i].word])
    && (forall i, j :: 0 <= i < j < |top| ==> top[i].word != top[j].word)
    && Descending(top)
    && (forall w :: w in keys && (forall i :: 0 <= i < |top| ==> top[i].word != w) ==>
          |top| > 0 && counts[w] <= top[|top| - 1].count)
  }

  /** Cutting an arrangement of the tallies gives a top of the keys. */
  lemma TopOfSorted(keys: seq<string>, counts: map<string, nat>, sorted: seq<Tally>)
    requires ArrangesTallies(keys, counts, sorted)
    ensures TopOfKeys(keys, counts, TakeTop(sorted))
  {
    var top := TakeTop(sorted);
    forall w | w in keys && (forall i :: 0 <= i < |top| ==> top[i].word != w)
      ensures |top| > 0 && counts[w] <= top[|top| - 1].count
    {
      var p :| 0 <= p < |keys| && keys[p] == w;
      var k :| 0 <= k < |sorted| && sorted[k].word == keys[p];
      assert k >= TopCount;
      PastCutAtMostLast(sorted, k);
    }
  }

  /** Distinct keys that are exactly the words are as many as the words. */
  lemma KeysCountWords(items: seq<Option<seq<string>>>, keys: seq<string>)
    requires Distinct(keys)
    requires forall w :: w in keys <==> w in WordSet(items)
    ensures |WordSet(items)| == |keys|
  {
    assert (set x | x in keys) == WordSet(items);
    DistinctCardinality(keys);
  }

  /** What `BuildCounts` establishes. */
  ghost predicate CountsOf(items: seq<Option<seq<string>>>, keys: seq<string>, counts: map<string, nat>) {
    && Distinct(keys)
    && (forall w :: w in counts <==> w in keys)
    && (forall w :: w in keys <==> w in WordSet(items))
    && (forall w :: w in counts ==> counts[w] == CountIn(Flatten(items), w))
  }

  /**
   * `top` is what the insights page shows: five words or as many as there
   * are, each distinct with its number of occurrences, descending, and no
   * word left out occurs more often than the last one shown.
   */
  ghost predicate IsTopWords(items: seq<Option<seq<string>>>, top: seq<Tally>) {
    && |top| == (if |WordSet(items)| < TopCount then |WordSet(items)| else TopCount)
    && (forall i :: 0 <= i < |top| ==>
          top[i].word in WordSet(items) && top[i].count == CountIn(Flatten(items), top[i].word))
    && (forall i, j :: 0 <= i < j < |top| ==> top[i].word != top[j].word)
    && Descending(top)
    && (forall w :: w in WordSet(items) && (forall i :: 0 <= i < |top| ==> top[i].word != w) ==>
          |top| > 0 && CountIn(Flatten(items), w) <= top[|top| - 1].count)
  }

  /** A top of the counted keys is a top of the words of the input. */
  lemma TopIsTopWords(items: seq<Option<seq<string>>>, keys: seq<string>, counts: map<string, nat>, top: seq<Tally>)
    requires CountsOf(items, keys, counts)
    requires TopOfKeys(keys, counts, top)
    ensures IsTopWords(items, top)
  {
    KeysCountWords(items, keys);
  }

  /**
   * `buildCounts`: at most five tallies, as many as there are distinct
   * words when fewer, each a distinct word with its number of occurrences.
   * They come in descending order, and no word left out occurs more often
   * than the last one reported.
   */
  method TopWords(items: seq<Option<seq<string>>>) returns (top: seq<Tally>)
    ensures |top| == if |WordSet(items)| < TopCount then |WordSet(items)| else TopCount
    ensures forall i :: 0 <= i < |top| ==>
      top[i].word in WordSet(items) && top[i].count == CountIn(Flatten(items), top[i].word)
    ensures forall i, j :: 0 <= i < j < |top| ==> top[i].word != top[j].word
    ensures Descending(top)
    ensures forall w :: w in WordSet(items) && (forall i :: 0 <= i < |top| ==> top[i].word != w) ==>
      |top| > 0 && CountIn(Flatten(items), w) <= top[|top| - 1].count
  {
    var keys, counts := BuildCounts(items);
    var sorted := SortDescending(TalliesOf(keys, counts));
    SortedTallies(keys, counts);
    TopOfSorted(keys, counts, sorted);
    top := TakeTop(sorted);
    TopIsTopWords(items, keys, counts, top);
  }
}
