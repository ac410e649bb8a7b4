/** The two ways to collect the result keys of a listing: `build_full_result`, page by page, and
    `result_key_iters`, one iterator per key over a teed page stream. */
module ResultKeys {
  import opened Prelude
  import opened Tee

  /** A parsed page: the list found under each result key; an absent key found nothing. */
  type KeyedPage<K, V> = map<K, seq<V>>

  /** What a listing holds under a key, an absent key counting as empty. */
  function Collected<K, V>(pages: seq<KeyedPage<K, V>>, key: K): seq<V> {
    if pages == [] then []
    else (if key in pages[0] then pages[0][key] else []) + Collected(pages[1..], key)
  }

  predicate Occurs<K, V>(pages: seq<KeyedPage<K, V>>, key: K) {
    exists i | 0 <= i < |pages| :: key in pages[i]
  }

  lemma {:induction false} CollectedConcat<K, V>(a: seq<KeyedPage<K, V>>, b: seq<KeyedPage<K, V>>, key: K)
    ensures Collected(a + b, key) == Collected(a, key) + Collected(b, key)
  {
    if a == [] {
      assert a + b == b;
    } else {
      assert (a + b)[0] == a[0] && (a + b)[1..] == a[1..] + b;
      CollectedConcat(a[1..], b, key);
    }
  }

  lemma CollectedSnoc<K, V>(pages: seq<KeyedPage<K, V>>, i: nat, key: K)
    requires i < |pages|
    ensures Collected(pages[..i + 1], key)
         == Collected(pages[..i], key) + if key in pages[i] then pages[i][key] else []
    ensures Occurs(pages[..i + 1], key) <==> Occurs(pages[..i], key) || key in pages[i]
    ensures !Occurs(pages[..i], key) ==> Collected(pages[..i], key) == []
  {
    assert pages[..i + 1] == pages[..i] + [pages[i]];
    CollectedConcat(pages[..i], [pages[i]], key);
    assert pages[..i + 1][i] == pages[i];
    if Occurs(pages[..i], key) {
      var k :| 0 <= k < i && key in pages[..i][k];
      assert key in pages[..i + 1][k];
    } else {
      NothingCollected(pages[..i], key);
    }
  }

  lemma {:induction false} NothingCollected<K, V>(pages: seq<KeyedPage<K, V>>, key: K)
    requires !Occurs(pages, key)
    ensures Collected(pages, key) == []
  {
    if pages == [] {
    } else {
      assert key !in pages[0];
      assert forall i | 0 <= i < |pages[1..]| :: pages[1..][i] == pages[i + 1];
      NothingCollected(pages[1..], key);
    }
  }

  /** The accumulated result covers these pages for this key. */
  ghost predicate Accumulates<K, V>(result: map<K, seq<V>>, pages: seq<KeyedPage<K, V>>, key: K) {
    && (key in result <==> Occurs(pages, key))
    && (key in result ==> result[key] == Collected(pages, key))
  }

  /** One key of one page merged into the result. */
  function Merged<K, V>(complete: map<K, seq<V>>, page: KeyedPage<K, V>, key: K): map<K, seq<V>> {
    if key in page then complete[key := (if key in complete then complete[key] else []) + page[key]] else complete
  }

  lemma MergeAccumulates<K, V>(complete: map<K, seq<V>>, pages: seq<KeyedPage<K, V>>, i: nat, key: K)
    requires i < |pages| && Accumulates(complete, pages[..i], key)
    ensures Accumulates(Merged(complete, pages[i], key), pages[..i + 1], key)
  {
    CollectedSnoc(pages, i, key);
  }

  lemma MergeKeepsOthers<K, V>(
    complete: map<K, seq<V>>, page: KeyedPage<K, V>, key: K, pages: seq<KeyedPage<K, V>>, other: K)
    requires other != key
    ensures Accumulates(Merged(complete, page, key), pages, other) <==> Accumulates(complete, pages, other)
  {
  }

  /** `build_full_result` for list-valued keys. */
  method BuildFullResult<K(==), V>(pages: seq<KeyedPage<K, V>>, keys: seq<K>) returns (complete: map<K, seq<V>>)
    requires forall i, j | 0 <= i < j < |keys| :: keys[i] != keys[j]
    ensures forall k | 0 <= k < |keys| :: Accumulates(complete, pages, keys[k])
    ensures forall key <- complete :: key in keys
  {
    complete := map[];
    forall k | 0 <= k < |keys| ensures Accumulates(complete, pages[..0], keys[k]) {
    }
    hide Accumulates, Collected, Occurs;
    for i := 0 to |pages|
      invariant forall k | 0 <= k < |keys| :: Accumulates(complete, pages[..i], keys[k])
      invariant forall key <- complete :: key in keys
    {
      for j := 0 to |keys|
        invariant forall k | 0 <= k < j :: Accumulates(complete, pages[..i + 1], keys[k])
        invariant forall k | j <= k < |keys| :: Accumulates(complete, pages[..i], keys[k])
        invariant forall key <- complete :: key in keys
      {
        var key := keys[j];
        ghost var before := complete;
        if key in pages[i] {
          if key in complete {
            complete := complete[key := complete[key] + pages[i][key]];
          } else {
            complete := complete[key := pages[i][key]];
            assert [] + pages[i][key] == pages[i][key];
          }
        }
        assert complete == Merged(before, pages[i], key);
        MergeAccumulates(before, pages, i, key);
        forall k | 0 <= k < |keys| && k != j
          ensures Accumulates(complete, if k < j then pages[..i + 1] else pages[..i], keys[k])
        {
          MergeKeepsOthers(before, pages[i], key, if k < j then pages[..i + 1] else pages[..i], keys[k]);
        }
      }
    }
    assert pages[..|pages|] == pages;
  }

  /** The generator of one `ResultKeyIterator`. */
  method IterateKey<K(==), V>(pages: seq<KeyedPage<K, V>>, key: K) returns (results: seq<V>)
    ensures results == Collected(pages, key)
  {
    results := [];
    for i := 0 to |pages|
      invariant results == Collected(pages[..i], key)
    {
      CollectedSnoc(pages, i, key);
      var found := if key in pages[i] then pages[i][key] else [];
      for j := 0 to |found|
        invariant results == Collected(pages[..i], key) + found[..j]
      {
        results := results + [found[j]];
      }
    }
    assert pages[..|pages|] == pages;
  }

  /** Of the last page under the key, `j` elements. */
  predicate PagePart<K, V>(seen: seq<KeyedPage<K, V>>, key: K, j: nat) {
    j <= if seen == [] || key !in seen[|seen| - 1] then 0 else |seen[|seen| - 1][key]|
  }

  /** What a key iterator has yielded when it is `j` elements into its latest page. */
  function YieldedSoFar<K, V>(seen: seq<KeyedPage<K, V>>, key: K, j: nat): seq<V>
    requires PagePart(seen, key, j)
  {
    Collected(AllButLast(seen), key) + if j == 0 then [] else seen[|seen| - 1][key][..j]
  }

  lemma PartOfPage<K, V>(seen: seq<KeyedPage<K, V>>, key: K, j: nat)
    requires PagePart(seen, key, j)
    ensures YieldedSoFar(seen, key, j) <= Collected(seen, key)
  {
    if seen == [] {
    } else {
      var last := |seen| - 1;
      CollectedSnoc(seen, last, key);
      assert seen[..last + 1] == seen;
    }
  }

  /** In every interleaving of the iterators of `result_key_iters` over one teed listing: what an
      iterator has yielded, even halfway through a page, is a prefix of what `build_full_result`
      accumulates under its key, and all of it once the iterator stops cleanly. */
  lemma KeyIteratorsAgree<K, V, E>(
    pages: seq<KeyedPage<K, V>>, keys: seq<K>, run: seq<Event<KeyedPage<K, V>, E>>, i: nat, complete: map<K, seq<V>>)
    requires i < |keys| && Legal(Start(|keys|), run)
    requires Produced(run) <= pages
    requires Ending(Start(|keys|), run) == Some(Exhausted) ==> Produced(run) == pages
    requires Accumulates(complete, pages, keys[i])
    ensures var seen := Items(Start(|keys|), run, i);
            var accumulated := if keys[i] in complete then complete[keys[i]] else [];
            && (forall j | PagePart(seen, keys[i], j) :: YieldedSoFar(seen, keys[i], j) <= accumulated)
            && (FirstSignal(Start(|keys|), run, i) == Some(Exhausted) ==> Collected(seen, keys[i]) == accumulated)
  {
    TeeGuarantee(|keys|, run, i);
    var seen := Items(Start(|keys|), run, i);
    assert seen <= Produced(run) <= pages;
    assert pages == seen + pages[|seen|..];
    CollectedConcat(seen, pages[|seen|..], keys[i]);
    if !Occurs(pages, keys[i]) {
      NothingCollected(pages, keys[i]);
    }
    forall j | PagePart(seen, keys[i], j)
      ensures YieldedSoFar(seen, keys[i], j) <= Collected(pages, keys[i])
    {
      PartOfPage(seen, keys[i], j);
    }
  }
}
