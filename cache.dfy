/** The cache in front of `index` (`@cache_page(20)`): one slot holding the
    last page served. While the slot is full the stored page is served as
    it is, whatever the posts are now; `cache.clear()` empties it. */
module Cache {
  import opened Models
  import opened Paging
  import opened Feeds

  class IndexCache {
    var slot: Option<Page<Post>>

    constructor ()
      ensures slot == None
    {
      slot := None;
    }

    /** Serve `index`: the stored page if there is one, else a fresh page, which is then stored. */
    method Render(db: Db, req: PageRequest) returns (page: Page<Post>)
      modifies this
      ensures old(slot).Some? ==> page == old(slot).value
      ensures old(slot).None? ==> page == Index(db, req)
      ensures slot == Some(page)
    {
      if slot.Some? {
        page := slot.value;
      } else {
        page := Index(db, req);
        slot := Some(page);
      }
    }

    /** `cache.clear()`. */
    method Clear()
      modifies this
      ensures slot == None
    {
      slot := None;
    }
  }

  /** Render the feed, delete every post, render again, clear the cache and
      render once more: the second page repeats the first, the third shows
      the deletion. */
  method CacheHidesDeletionUntilCleared(db: Db, req: PageRequest)
    returns (first: Page<Post>, second: Page<Post>, third: Page<Post>)
    requires db.posts != []
    ensures second == first
    ensures first.items != [] && third.items == []
  {
    var cache := new IndexCache();
    first := cache.Render(db, req);
    var emptied := DeleteAllPosts(db);
    second := cache.Render(emptied, req);
    cache.Clear();
    third := cache.Render(emptied, req);
  }
}
