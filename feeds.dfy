/**
 * What a message feed promises, independent of how it is computed:
 * `GetChannelMessages` and `GetPersonalMessages` both answer with
 * message views ordered by `DateSent` descending, then `Id` descending,
 * cut to a limit.
 */
module Feeds {
  import opened Sorting
  import opened Responses

  /** Strictly newest first. */
  predicate NewestFirst(items: seq<MessageView>)
  {
    forall i, j :: 0 <= i < j < |items| ==> ViewNewer(items[i], items[j])
  }

  /**
   * `items` is the feed of at most `n` entries drawn from `views`: newest
   * first, as many as `n` allows, only entries of `views`, all of them when
   * `n` covers them, and none left out that is newer than one listed.
   */
  predicate IsFeedOf(items: seq<MessageView>, views: seq<MessageView>, n: int)
  {
    && NewestFirst(items)
    && |items| == (if n < |views| then n else |views|)
    && (forall v :: v in items ==> v in views)
    && (n >= |views| ==> forall v :: v in views ==> v in items)
    && (forall v, w :: v in views && v !in items && w in items ==> ViewNewer(w, v))
  }

  /** The first `n` of a newest-first ordering of `views` are the feed of `n` entries. */
  lemma SortedTakeIsFeed(sorted: seq<MessageView>, views: seq<MessageView>, n: nat)
    requires multiset(sorted) == multiset(views)
    requires NewestFirst(sorted)
    ensures IsFeedOf(Take(sorted, n), views, n)
  {
    var items := Take(sorted, n);
    assert |sorted| == |views| by {
      assert |multiset(sorted)| == |multiset(views)|;
    }
    assert forall k :: 0 <= k < |items| ==> items[k] == sorted[k];
    forall v | v in items ensures v in views {
      assert v in multiset(sorted);
    }
    forall v | n >= |views| && v in views ensures v in items {
      assert v in multiset(sorted);
    }
    forall v, w | v in views && v !in items && w in items ensures ViewNewer(w, v) {
      assert v in multiset(sorted);
      var j :| 0 <= j < |sorted| && sorted[j] == v;
      var i :| 0 <= i < |items| && items[i] == w;
      assert i < j;
    }
  }
}
