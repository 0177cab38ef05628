/** `make_recommendations` of `recommendation-service/src/services.py`: look up
    each declared preference in a fixed table of accessories, concatenate the
    hits in preference order and keep the first six. */
module AccessoryService {
  import opened Seqs

  /** The fixed preference-to-accessories table (`pool`). */
  const Pool: map<string, seq<string>> := map[
    "laptop" := ["laptop-stand", "usb-c-dock"],
    "mouse" := ["mouse-pad", "ergonomic-wrist-rest"],
    "keyboard" := ["keycap-set", "switch-lubricant"],
    "headphone" := ["headphone-case", "dac-amp"]
  ]

  /** How many accessories are returned at most (`recs[:6]`). */
  const MaxRecommendations: nat := 6

  /** `pool.get(p, [])`: a preference outside the table contributes nothing. */
  function Lookup(p: string): seq<string>
  {
    if p in Pool then Pool[p] else []
  }

  /** The table's accessories for every preference, in preference order,
      repeats included. */
  function Accessories(preferences: seq<string>): (r: seq<string>)
    ensures |r| <= 2 * |preferences|
  {
    if preferences == [] then []
    else Lookup(preferences[0]) + Accessories(preferences[1..])
  }

  lemma {:induction false} AccessoriesConcat(a: seq<string>, b: seq<string>)
    ensures Accessories(a + b) == Accessories(a) + Accessories(b)
  {
    if a == [] {
      assert a + b == b;
    } else {
      assert (a + b)[1..] == a[1..] + b;
      AccessoriesConcat(a[1..], b);
    }
  }

  /** The loop: each preference extends `recs` with its accessories; then the
      list is cut to six. */
  method MakeRecommendations(preferences: seq<string>) returns (recs: seq<string>)
    ensures recs == Take(Accessories(preferences), MaxRecommendations)
    ensures |recs| <= 6
  {
    recs := [];
    for i := 0 to |preferences|
      invariant recs == Accessories(preferences[..i])
    {
      AccessoriesConcat(preferences[..i], [preferences[i]]);
      assert preferences[..i + 1] == preferences[..i] + [preferences[i]];
      recs := recs + Lookup(preferences[i]);
    }
    assert preferences[..|preferences|] == preferences;
    recs := Take(recs, MaxRecommendations);
  }

  /** A preference that is not in the table can be dropped without changing
      the result. */
  lemma {:induction false} UnknownPreferenceIgnored(before: seq<string>, p: string, after: seq<string>)
    requires p !in Pool
    ensures Accessories(before + [p] + after) == Accessories(before + after)
  {
    AccessoriesConcat(before + [p], after);
    AccessoriesConcat(before, [p]);
    AccessoriesConcat(before, after);
  }

  /** Every accessory offered is one of the table's values. */
  lemma {:induction false} AccessoriesFromTable(preferences: seq<string>)
    ensures forall a :: a in Accessories(preferences) ==>
              exists p :: p in Pool && a in Pool[p]
  {
    if preferences != [] {
      AccessoriesFromTable(preferences[1..]);
    }
  }

  /** No preferences, no accessories. */
  lemma NoPreferencesNoAccessories()
    ensures Take(Accessories([]), MaxRecommendations) == []
  {
  }

  /** A repeated preference repeats its accessories (no de-duplication), and
      the cut to six drops whatever follows. */
  lemma RepeatedPreferenceRepeats()
    ensures Take(Accessories(["laptop", "laptop"]), MaxRecommendations)
         == ["laptop-stand", "usb-c-dock", "laptop-stand", "usb-c-dock"]
    ensures Take(Accessories(["laptop", "mouse", "tablet", "keyboard", "headphone"]), MaxRecommendations)
         == ["laptop-stand", "usb-c-dock", "mouse-pad", "ergonomic-wrist-rest",
             "keycap-set", "switch-lubricant"]
  {
    assert Accessories(["laptop", "laptop"]) == Pool["laptop"] + Accessories(["laptop"]);
    var prefs := ["laptop", "mouse", "tablet", "keyboard", "headphone"];
    assert Accessories(prefs[4..]) == Pool["headphone"];
    assert Accessories(prefs[3..]) == Pool["keyboard"] + Pool["headphone"];
    assert Accessories(prefs[2..]) == Accessories(prefs[3..]);
    assert Accessories(prefs[1..]) == Pool["mouse"] + Accessories(prefs[2..]);
  }
}
