/** Price keys of one side of the book, ordered from best to worst. */
module PriceKeys {
  import opened Types

  // Price `p` is strictly better than `q` on side `s`: higher for bids, lower for asks.
  predicate Better(s: Side, p: Price, q: Price) {
    if s.Buy? then p > q else p < q
  }

  ghost predicate IsBest(s: Side, keys: set<Price>, p: Price) {
    p in keys && forall q | q in keys && q != p :: Better(s, p, q)
  }

  lemma Pick<T>(s: set<T>) returns (x: T)
    requires s != {}
    ensures x in s
  {
    x :| x in s;
  }

  lemma {:induction false} BestExists(s: Side, keys: set<Price>)
    requires keys != {}
    ensures exists p :: IsBest(s, keys, p)
    decreases |keys|
  {
    var k := Pick(keys);
    var rest := keys - {k};
    if rest == {} {
      assert keys == {k};
      assert IsBest(s, keys, k);
    } else {
      BestExists(s, rest);
      var p :| IsBest(s, rest, p);
      assert forall q | q in keys :: q == k || q in rest;
      assert IsBest(s, keys, if Better(s, p, k) then p else k);
    }
  }

  // The extreme key of the side, as `keys().next()` / `keys().next_back()` yield it.
  ghost function BestKey(s: Side, keys: set<Price>): (r: Option<Price>)
    ensures r.None? <==> keys == {}
    ensures r.Some? ==> IsBest(s, keys, r.value)
  {
    if keys == {} then None
    else
      BestExists(s, keys);
      var p :| IsBest(s, keys, p);
      Some(p)
  }

  lemma BestIsUnique(s: Side, keys: set<Price>, p: Price)
    requires IsBest(s, keys, p)
    ensures BestKey(s, keys) == Some(p)
  {
  }

  // All keys, best first: the order of `iter_best_to_worst`.
  ghost function SortedKeys(s: Side, keys: set<Price>): (r: seq<Price>)
    decreases |keys|
  {
    match BestKey(s, keys)
    case None => []
    case Some(p) => [p] + SortedKeys(s, keys - {p})
  }

  lemma {:induction false} SortedKeysFacts(s: Side, keys: set<Price>)
    ensures forall p :: p in keys <==> p in SortedKeys(s, keys)
    ensures forall i, j | 0 <= i < j < |SortedKeys(s, keys)| ::
              Better(s, SortedKeys(s, keys)[i], SortedKeys(s, keys)[j])
    decreases |keys|
  {
    match BestKey(s, keys)
    case None =>
    case Some(p) =>
      SortedKeysFacts(s, keys - {p});
      var rest := SortedKeys(s, keys - {p});
      assert SortedKeys(s, keys) == [p] + rest;
      forall j | 0 < j < |rest| + 1
        ensures Better(s, p, SortedKeys(s, keys)[j])
      {
        assert SortedKeys(s, keys)[j] == rest[j - 1];
        assert rest[j - 1] in rest;
      }
  }

  ghost function KeysAbove(s: Side, keys: set<Price>, p: Price): set<Price> {
    set q | q in keys && Better(s, q, p)
  }

  ghost function KeysBelow(s: Side, keys: set<Price>, p: Price): set<Price> {
    set q | q in keys && Better(s, p, q)
  }

  // Adding, dropping or keeping one key leaves the keys on either side of it alone.
  lemma {:induction false} SplitKeys(s: Side, keys: set<Price>, p: Price)
    ensures SortedKeys(s, keys) ==
            SortedKeys(s, KeysAbove(s, keys, p)) + (if p in keys then [p] else []) +
            SortedKeys(s, KeysBelow(s, keys, p))
    decreases |keys|
  {
    var above, below := KeysAbove(s, keys, p), KeysBelow(s, keys, p);
    match BestKey(s, keys)
    case None =>
      assert above == {} && below == {};
    case Some(b) =>
      if b == p {
        assert above == {};
        assert below == keys - {p};
      } else if Better(s, b, p) {
        SplitKeys(s, keys - {b}, p);
        assert KeysAbove(s, keys - {b}, p) == above - {b};
        assert KeysBelow(s, keys - {b}, p) == below;
        BestIsUnique(s, above, b);
      } else {
        assert p !in keys;
        assert above == {};
        assert below == keys;
      }
  }
}
