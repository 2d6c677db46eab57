/** Walking a chat's history page by page with a keyset cursor. */
module History {
  import opened Wrappers
  import opened Domain
  import opened MessageTables
  import Ordering

  /** The handler's clamp on the requested page size. */
  function Clamp(limit: int): (r: nat)
    ensures 1 <= r <= 100
    ensures 1 <= limit <= 100 ==> r == limit
  {
    if limit < 1 then 30 else if limit > 100 then 100 else limit
  }

  /** The cursor to go on from; reading the last element is safe because a full page is not empty. */
  function NextCursor(page: seq<Key>, limit: nat): Option<Key>
    requires limit >= 1
  {
    if |page| < limit then None else Some(page[|page| - 1])
  }

  function Listing(s: Store, chat: Id, cursor: Option<Key>): (r: seq<Key>)
    ensures Ordering.Ascending(Newer, r)
    ensures forall k :: k in r <==> k in Older(s, chat, cursor)
    ensures |r| == |Older(s, chat, cursor)|
  {
    NewerTotal();
    Ordering.Listed(Newer, Older(s, chat, cursor))
  }

  /** What lies beyond the last key of a full page is the rest of the list. */
  lemma RestOfListing(s: Store, chat: Id, cursor: Option<Key>, limit: nat)
    requires 1 <= limit <= |Listing(s, chat, cursor)|
    ensures Listing(s, chat, Some(Listing(s, chat, cursor)[limit - 1])) == Listing(s, chat, cursor)[limit..]
  {
    NewerTotal();
    var all := Listing(s, chat, cursor);
    var last := all[limit - 1];
    assert last in all && last in Older(s, chat, cursor);
    OlderNarrowed(s, chat, cursor, last);
    Ordering.AscendingRest(Newer, all, limit, Listing(s, chat, Some(last)));
  }

  lemma OlderNarrowed(s: Store, chat: Id, cursor: Option<Key>, last: Key)
    requires last in Older(s, chat, cursor)
    ensures forall k :: k in Older(s, chat, Some(last)) <==> k in Older(s, chat, cursor) && Newer(last, k)
  {
  }

  lemma PageIsPrefix(s: Store, chat: Id, cursor: Option<Key>, limit: nat)
    ensures PageKeys(s, chat, cursor, limit) == Take(Listing(s, chat, cursor), limit)
  {
    NewerTotal();
  }

  // ---- A fixed store ----

  /** The pages of a walk with one page size, from a cursor until there is no next cursor. */
  function Walk(s: Store, chat: Id, cursor: Option<Key>, limit: nat): seq<seq<Key>>
    requires limit >= 1
    decreases |Older(s, chat, cursor)|
  {
    var page := PageKeys(s, chat, cursor, limit);
    var next := NextCursor(page, limit);
    if next.None? then [page] else
    RestOfListing(s, chat, cursor, limit);
    [page] + Walk(s, chat, next, limit)
  }

  function Concat(pages: seq<seq<Key>>): seq<Key>
  {
    if pages == [] then [] else pages[0] + Concat(pages[1..])
  }

  lemma WalkUnfolds(s: Store, chat: Id, cursor: Option<Key>, limit: nat)
    requires limit >= 1
    ensures var all := Listing(s, chat, cursor);
            Walk(s, chat, cursor, limit) ==
              if |all| < limit then [all]
              else [all[..limit]] + Walk(s, chat, Some(all[limit - 1]), limit)
  {
    PageIsPrefix(s, chat, cursor, limit);
    var all := Listing(s, chat, cursor);
    assert all[..|all|] == all;
  }

  /** A list cut into pages; a full page is always followed by another, perhaps empty. */
  function Pages(all: seq<Key>, limit: nat): seq<seq<Key>>
    requires limit >= 1
    decreases |all|
  {
    if |all| < limit then [all] else [all[..limit]] + Pages(all[limit..], limit)
  }

  lemma {:induction false} WalkIsPages(s: Store, chat: Id, cursor: Option<Key>, limit: nat)
    requires limit >= 1
    ensures Walk(s, chat, cursor, limit) == Pages(Listing(s, chat, cursor), limit)
    decreases |Listing(s, chat, cursor)|
  {
    var all := Listing(s, chat, cursor);
    WalkUnfolds(s, chat, cursor, limit);
    if |all| >= limit {
      RestOfListing(s, chat, cursor, limit);
      WalkIsPages(s, chat, Some(all[limit - 1]), limit);
    }
  }

  lemma {:induction false} PagesConcat(all: seq<Key>, limit: nat)
    requires limit >= 1
    ensures Concat(Pages(all, limit)) == all
    decreases |all|
  {
    if |all| < limit {
      assert Concat([all]) == all;
    } else {
      PagesConcat(all[limit..], limit);
      assert Pages(all, limit)[1..] == Pages(all[limit..], limit);
    }
  }

  lemma {:induction false} PagesCount(all: seq<Key>, limit: nat)
    requires limit >= 1
    ensures |Pages(all, limit)| == |all| / limit + 1
    decreases |all|
  {
    if |all| < limit {
      QuotientUnique(|all|, limit, 0, |all|);
    } else {
      PagesCount(all[limit..], limit);
      QuotientStep(|all|, limit);
    }
  }

  lemma QuotientStep(n: nat, limit: nat)
    requires limit >= 1 && n >= limit
    ensures n / limit == (n - limit) / limit + 1
  {
    var q, r := (n - limit) / limit, (n - limit) % limit;
    assert n == limit * (q + 1) + r by { assert limit * (q + 1) == limit * q + limit; }
    QuotientUnique(n, limit, q + 1, r);
  }

  lemma QuotientUnique(n: nat, d: nat, q: nat, r: nat)
    requires r < d && n == d * q + r
    ensures n / d == q
  {
    var k := n / d;
    assert n == d * k + n % d;
    if k < q { assert d * (k + 1) <= d * q by { Scale(d, k + 1, q); } }
    if k > q { assert d * (q + 1) <= d * k by { Scale(d, q + 1, k); } }
  }

  lemma Scale(d: nat, a: nat, b: nat)
    requires a <= b
    ensures d * a <= d * b
  {
  }

  /** For every store and page size, a walk ends after ⌊n/limit⌋ + 1 requests with the whole
      history, each live message of the chat once, in descending (created_at, id) order. */
  lemma WalkYieldsAll(s: Store, chat: Id, limit: nat)
    requires limit >= 1
    ensures var out := Concat(Walk(s, chat, None, limit));
            && (forall i, j :: 0 <= i < j < |out| ==>
                 out[i].0 > out[j].0 || (out[i].0 == out[j].0 && out[i].1 > out[j].1))
            && (forall id :: Live(s, id) && s.messages[id].chat == chat ==> (s.messages[id].createdAt, id) in out)
            && (forall k :: k in out ==>
                 Live(s, k.1) && s.messages[k.1].chat == chat && s.messages[k.1].createdAt == k.0)
            && |Walk(s, chat, None, limit)| == |out| / limit + 1
  {
    WalkIsPages(s, chat, None, limit);
    PagesConcat(Listing(s, chat, None), limit);
    PagesCount(Listing(s, chat, None), limit);
  }

  // ---- A store that changes between the requests ----

  /** What a client collects: the page each request finds in the store of its moment, followed
      until there is no next cursor; and whether that point was reached. */
  function Collect(fetches: seq<(Store, nat)>, chat: Id, cursor: Option<Key>): (seq<Key>, bool)
    requires forall i :: 0 <= i < |fetches| ==> fetches[i].1 >= 1
    decreases |fetches|
  {
    if fetches == [] then ([], false) else
    var page := PageKeys(fetches[0].0, chat, cursor, fetches[0].1);
    var next := NextCursor(page, fetches[0].1);
    if next.None? then (page, true) else
    var (rest, done) := Collect(fetches[1..], chat, next);
    (page + rest, done)
  }

  ghost predicate Below(k: Key, cursor: Option<Key>)
  {
    cursor.Some? ==> Newer(cursor.value, k)
  }

  lemma PageDescends(s: Store, chat: Id, cursor: Option<Key>, limit: nat)
    requires limit >= 1
    ensures var page := PageKeys(s, chat, cursor, limit);
            && Ordering.Ascending(Newer, page) && forall k :: k in page ==> Below(k, cursor)
  {
    PageIsPrefix(s, chat, cursor, limit);
  }

  lemma NewerTransitive(cursor: Option<Key>, last: Key, k: Key)
    requires Below(last, cursor) && Newer(last, k)
    ensures Below(k, cursor)
  {
  }

  /** Whatever happens to the store, the output descends strictly, and is all below the cursor. */
  lemma {:induction false} CollectDescends(fetches: seq<(Store, nat)>, chat: Id, cursor: Option<Key>)
    requires forall i :: 0 <= i < |fetches| ==> fetches[i].1 >= 1
    ensures Ordering.Ascending(Newer, Collect(fetches, chat, cursor).0)
    ensures forall k :: k in Collect(fetches, chat, cursor).0 ==> Below(k, cursor)
    decreases |fetches|
  {
    if fetches != [] {
      var page := PageKeys(fetches[0].0, chat, cursor, fetches[0].1);
      var next := NextCursor(page, fetches[0].1);
      PageDescends(fetches[0].0, chat, cursor, fetches[0].1);
      if next.Some? {
        CollectDescends(fetches[1..], chat, next);
        var rest := Collect(fetches[1..], chat, next).0;
        var last := page[|page| - 1];
        assert last in page;
        NewerTotal();
        Ordering.AscendingConcat(Newer, page, rest);
        forall k | k in rest
          ensures Below(k, cursor)
        {
          NewerTransitive(cursor, last, k);
        }
      }
    }
  }

  /** A key present at every read of a completed walk is in the output. */
  lemma {:induction false} CollectComplete(fetches: seq<(Store, nat)>, chat: Id, cursor: Option<Key>, k: Key)
    requires forall i :: 0 <= i < |fetches| ==> fetches[i].1 >= 1
    requires forall i :: 0 <= i < |fetches| ==> k in Older(fetches[i].0, chat, None)
    requires Below(k, cursor) && Collect(fetches, chat, cursor).1
    ensures k in Collect(fetches, chat, cursor).0
    decreases |fetches|
  {
    var s, limit := fetches[0].0, fetches[0].1;
    var all := Listing(s, chat, cursor);
    var page := PageKeys(s, chat, cursor, limit);
    var next := NextCursor(page, limit);
    assert k in Older(s, chat, cursor) by {
      assert k in Older(s, chat, None);
    }
    PageIsPrefix(s, chat, cursor, limit);
    if next.Some? {
      Ordering.InPrefixOrAfter(Newer, all, limit, k);
      if k !in page {
        CollectComplete(fetches[1..], chat, next, k);
      }
    }
  }

  /** Only what some read found is in the output. */
  lemma {:induction false} CollectSound(fetches: seq<(Store, nat)>, chat: Id, cursor: Option<Key>, k: Key)
    requires forall i :: 0 <= i < |fetches| ==> fetches[i].1 >= 1
    requires k in Collect(fetches, chat, cursor).0
    ensures exists i :: 0 <= i < |fetches| && k in Older(fetches[i].0, chat, None)
    decreases |fetches|
  {
    var page := PageKeys(fetches[0].0, chat, cursor, fetches[0].1);
    var next := NextCursor(page, fetches[0].1);
    if k in page {
      assert k in Older(fetches[0].0, chat, cursor);
      assert k in Older(fetches[0].0, chat, None);
    } else {
      CollectSound(fetches[1..], chat, next, k);
      var i :| 0 <= i < |fetches[1..]| && k in Older(fetches[1..][i].0, chat, None);
      assert fetches[i + 1] == fetches[1..][i];
    }
  }
}
