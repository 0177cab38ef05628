/** Group-by-count followed by a descending sort and a head: the shape shared
    by the Mongo pipeline `$group`/`$sort`/`$limit` and the pandas chain
    `groupby(...).size().sort_values(ascending=False).head(k)`. */
module Popularity {
  import opened Seqs
  import opened Ranking

  /** One entry per distinct value of `s`, in order of first appearance,
      scored by how often the value occurs. */
  function Tally<K(==,!new)>(s: seq<K>): (t: seq<Ranked<K>>)
    ensures Keys(t) == Dedup(s)
    ensures forall i :: 0 <= i < |t| ==> t[i].score == Count(s, t[i].key) as real
  {
    var d := Dedup(s);
    seq(|d|, i requires 0 <= i < |d| => Ranked(d[i], Count(s, d[i]) as real))
  }

  /** The `k` most frequent values of `s` with their counts, most frequent first. */
  function MostFrequent<K(==,!new)>(s: seq<K>, k: nat): seq<Ranked<K>>
  {
    Take(SortDesc(Tally(s)), k)
  }

  /** Each entry of `MostFrequent` is a value of `s` scored by its exact count. */
  lemma MostFrequentEntries<K(!new)>(s: seq<K>, k: nat, i: nat)
    requires i < |MostFrequent(s, k)|
    ensures MostFrequent(s, k)[i].key in s
    ensures MostFrequent(s, k)[i].score == Count(s, MostFrequent(s, k)[i].key) as real
  {
    var t := Tally(s);
    SortDescFrom(t, i);
    var j :| 0 <= j < |t| && t[j] == SortDesc(t)[i];
    assert t[j].key == Keys(t)[j];
  }

  /** A value that `MostFrequent` leaves out only misses the cut: the list is
      full and the value is no more frequent than its last entry. */
  lemma MostFrequentLeftOut<K(!new)>(s: seq<K>, k: nat, x: K)
    requires x in s && x !in Keys(MostFrequent(s, k))
    ensures |MostFrequent(s, k)| == k
    ensures k > 0 ==> Count(s, x) as real <= MostFrequent(s, k)[k - 1].score
  {
    var t := Tally(s);
    var sorted := SortDesc(t);
    var r := MostFrequent(s, k);
    assert x in Keys(t);
    var j :| 0 <= j < |t| && Keys(t)[j] == x;
    assert t[j] in multiset(sorted);
    var m :| 0 <= m < |sorted| && sorted[m] == t[j];
    assert Keys(r) == Keys(sorted)[..|r|];
    assert Keys(sorted)[m] == x;
    assert m >= |r|;
  }

  /** `MostFrequent` keeps the sorted order and the distinct keys of the tally. */
  lemma MostFrequentShape<K(!new)>(s: seq<K>, k: nat)
    ensures |MostFrequent(s, k)| == Min(k, |Dedup(s)|)
    ensures Distinct(Keys(MostFrequent(s, k)))
    ensures NonIncreasing(MostFrequent(s, k))
  {
    var t := Tally(s);
    var sorted := SortDesc(t);
    var r := MostFrequent(s, k);
    assert r == sorted[..|r|];
    SortDescKeys(t);
    assert Keys(r) == Keys(sorted)[..|r|];
  }

  /** `MostFrequent` is a true top-`k`: it lists distinct values of `s` with
      their exact counts in non-increasing order, and any value it leaves out
      is no more frequent than the last one it keeps. */
  lemma MostFrequentSpec<K(!new)>(s: seq<K>, k: nat)
    ensures |MostFrequent(s, k)| == Min(k, |Dedup(s)|)
    ensures Distinct(Keys(MostFrequent(s, k)))
    ensures NonIncreasing(MostFrequent(s, k))
    ensures forall i :: 0 <= i < |MostFrequent(s, k)| ==>
              MostFrequent(s, k)[i].key in s &&
              MostFrequent(s, k)[i].score == Count(s, MostFrequent(s, k)[i].key) as real
    ensures forall x :: x in s && x !in Keys(MostFrequent(s, k)) ==>
              |MostFrequent(s, k)| == k &&
              (k > 0 ==> Count(s, x) as real <= MostFrequent(s, k)[k - 1].score)
  {
    var r := MostFrequent(s, k);
    MostFrequentShape(s, k);
    forall i | 0 <= i < |r|
      ensures r[i].key in s && r[i].score == Count(s, r[i].key) as real
    {
      MostFrequentEntries(s, k, i);
    }
    forall x | x in s && x !in Keys(r)
      ensures |r| == k && (k > 0 ==> Count(s, x) as real <= r[k - 1].score)
    {
      MostFrequentLeftOut(s, k, x);
    }
  }
}
