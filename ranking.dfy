/** Ranking by score, highest first. The sorts the core calls (numpy
    `argsort`, pandas `sort_values`, Mongo `$sort`) are not stable, so the
    order among equal scores is left to this insertion sort; every property
    proved below holds whatever that order is. */
module Ranking {
  import opened Seqs

  /** A key paired with the score it is ranked by. */
  datatype Ranked<K> = Ranked(key: K, score: real)

  ghost predicate NonIncreasing<K>(s: seq<Ranked<K>>)
  {
    forall i, j :: 0 <= i < j < |s| ==> s[i].score >= s[j].score
  }

  function Keys<K>(s: seq<Ranked<K>>): seq<K>
  {
    seq(|s|, i requires 0 <= i < |s| => s[i].key)
  }

  /** Places `x` in front of the first entry whose score does not exceed its own. */
  function Insert<K(==)>(x: Ranked<K>, s: seq<Ranked<K>>): (r: seq<Ranked<K>>)
    ensures multiset(r) == multiset(s) + multiset{x}
    ensures NonIncreasing(s) ==> NonIncreasing(r)
  {
    if s == [] || s[0].score <= x.score then [x] + s
    else
      var rest := Insert(x, s[1..]);
      assert s == [s[0]] + s[1..];
      InsertBehindHead(s, x, rest);
      [s[0]] + rest
  }

  /** The head of a sorted `s` that outranks `x` stays in front of the rest
      with `x` inserted. */
  lemma InsertBehindHead<K>(s: seq<Ranked<K>>, x: Ranked<K>, rest: seq<Ranked<K>>)
    requires s != [] && s[0].score > x.score
    requires multiset(rest) == multiset(s[1..]) + multiset{x}
    requires NonIncreasing(s[1..]) ==> NonIncreasing(rest)
    ensures NonIncreasing(s) ==> NonIncreasing([s[0]] + rest)
  {
    if NonIncreasing(s) {
      var t := s[1..];
      assert NonIncreasing(t) by {
        forall i, j | 0 <= i < j < |t| ensures t[i].score >= t[j].score {
          assert t[i] == s[i + 1] && t[j] == s[j + 1];
        }
      }
      forall j | 0 <= j < |rest| ensures s[0].score >= rest[j].score {
        assert rest[j] in multiset(rest);
        if rest[j] != x {
          assert rest[j] in multiset(t);
          var k :| 0 <= k < |t| && t[k] == rest[j];
          assert t[k] == s[k + 1];
        }
      }
      var r := [s[0]] + rest;
      forall i, j | 0 <= i < j < |r| ensures r[i].score >= r[j].score {
        assert r[j] == rest[j - 1];
        if i > 0 {
          assert r[i] == rest[i - 1];
        }
      }
    }
  }

  /** The entries of `s`, highest score first. */
  function SortDesc<K(==)>(s: seq<Ranked<K>>): (r: seq<Ranked<K>>)
    ensures multiset(r) == multiset(s)
    ensures |r| == |s|
    ensures NonIncreasing(r)
  {
    if s == [] then []
    else
      assert s == [s[0]] + s[1..];
      Insert(s[0], SortDesc(s[1..]))
  }

  /** Inserting adds exactly one key, and keeps keys distinct when it is new. */
  lemma {:induction false} InsertKeys<K>(x: Ranked<K>, s: seq<Ranked<K>>)
    ensures forall k :: k in Keys(Insert(x, s)) <==> k == x.key || k in Keys(s)
    ensures Distinct(Keys(s)) && x.key !in Keys(s) ==> Distinct(Keys(Insert(x, s)))
  {
    if s == [] || s[0].score <= x.score {
      assert Keys(Insert(x, s)) == [x.key] + Keys(s);
    } else {
      InsertKeys(x, s[1..]);
      assert Keys(s) == [s[0].key] + Keys(s[1..]);
      assert Keys(Insert(x, s)) == [s[0].key] + Keys(Insert(x, s[1..]));
      if Distinct(Keys(s)) && x.key !in Keys(s) {
        DistinctCons(s[0].key, Keys(s[1..]));
        assert x.key !in Keys(s[1..]);
        DistinctCons(s[0].key, Keys(Insert(x, s[1..])));
      }
    }
  }

  /** Sorting neither adds nor drops keys. */
  lemma {:induction false} SortDescKeySet<K>(s: seq<Ranked<K>>)
    ensures forall k :: k in Keys(SortDesc(s)) <==> k in Keys(s)
  {
    if s != [] {
      var rest := SortDesc(s[1..]);
      SortDescKeySet(s[1..]);
      InsertKeys(s[0], rest);
      assert SortDesc(s) == Insert(s[0], rest);
      assert Keys(s) == [s[0].key] + Keys(s[1..]);
    }
  }

  /** Sorting keeps distinct keys distinct. */
  lemma {:induction false} SortDescKeysDistinct<K>(s: seq<Ranked<K>>)
    requires Distinct(Keys(s))
    ensures Distinct(Keys(SortDesc(s)))
  {
    if s != [] {
      var rest := SortDesc(s[1..]);
      assert Keys(s) == [s[0].key] + Keys(s[1..]);
      DistinctCons(s[0].key, Keys(s[1..]));
      SortDescKeysDistinct(s[1..]);
      SortDescKeySet(s[1..]);
      InsertKeys(s[0], rest);
      assert SortDesc(s) == Insert(s[0], rest);
    }
  }

  /** Sorting neither adds nor drops keys, and keeps them distinct. */
  lemma SortDescKeys<K>(s: seq<Ranked<K>>)
    ensures forall k :: k in Keys(SortDesc(s)) <==> k in Keys(s)
    ensures Distinct(Keys(s)) ==> Distinct(Keys(SortDesc(s)))
  {
    SortDescKeySet(s);
    if Distinct(Keys(s)) {
      SortDescKeysDistinct(s);
    }
  }

  /** Every entry of a sorted sequence comes from the input. */
  lemma SortDescFrom<K>(s: seq<Ranked<K>>, m: nat)
    requires m < |SortDesc(s)|
    ensures SortDesc(s)[m] in s
  {
    assert SortDesc(s)[m] in multiset(SortDesc(s));
  }
}
