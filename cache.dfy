/**
 * Cache invalidation: the log of invalidated cache tags, and the helper
 * that invalidates the tags of one server and its categories.
 * `revalidateTag` is the framework's; the model records each tag it is
 * given and lets a predicate say which calls throw.
 */
module Cache {
  import opened Wrappers

  const SERVERS_TAG: string := "servers"

  /** The tags invalidated so far, in call order. */
  class TagLog {
    var tags: seq<string>

    constructor ()
      ensures tags == []
    {
      tags := [];
    }

    /** `revalidateTag(tag)`: recorded unless the call throws. */
    method Invalidate(tag: string, throws: string -> bool) returns (ok: bool)
      modifies this
      ensures ok == !throws(tag)
      ensures ok ==> tags == old(tags) + [tag]
      ensures !ok ==> tags == old(tags)
    {
      ok := !throws(tag);
      if ok {
        tags := tags + [tag];
      }
    }
  }

  function ServerTag(slug: string): string {
    "server-" + slug
  }

  function CategoryTag(categorySlug: string): string {
    "category-" + categorySlug
  }

  /** The tags of the listed categories, in order. */
  function CategoryTags(categoryNames: seq<string>, generateSlug: string -> string): (r: seq<string>)
    ensures |r| == |categoryNames|
    ensures forall i :: 0 <= i < |categoryNames| ==> r[i] == CategoryTag(generateSlug(categoryNames[i]))
  {
    seq(|categoryNames|, i requires 0 <= i < |categoryNames| => CategoryTag(generateSlug(categoryNames[i])))
  }

  /** The tags of a server and of its categories, in the order they are invalidated. */
  function ServerCacheTags(slug: string, categoryNames: seq<string>, generateSlug: string -> string): (r: seq<string>)
    ensures |r| == 2 + |categoryNames|
    ensures r[0] == SERVERS_TAG && r[1] == ServerTag(slug)
  {
    [SERVERS_TAG, ServerTag(slug)] + CategoryTags(categoryNames, generateSlug)
  }

  /** No tag of `tags` throws when invalidated. */
  predicate NoneThrow(tags: seq<string>, throws: string -> bool) {
    forall i :: 0 <= i < |tags| ==> !throws(tags[i])
  }

  /** The index of the first tag whose invalidation throws. */
  function FirstThrowing(tags: seq<string>, throws: string -> bool): (r: Option<nat>)
    ensures r.None? <==> forall i :: 0 <= i < |tags| ==> !throws(tags[i])
    ensures r.Some? ==> r.value < |tags| && throws(tags[r.value])
    ensures r.Some? ==> forall i :: 0 <= i < r.value ==> !throws(tags[i])
  {
    if tags == [] then None
    else if throws(tags[0]) then Some(0)
    else
      match FirstThrowing(tags[1..], throws)
      case None => None
      case Some(k) => Some(k + 1)
  }

  lemma {:induction false} FirstThrowingAt(tags: seq<string>, throws: string -> bool, k: nat)
    requires k < |tags| && throws(tags[k]) && forall i :: 0 <= i < k ==> !throws(tags[i])
    ensures FirstThrowing(tags, throws) == Some(k)
    decreases k
  {
    if k > 0 {
      FirstThrowingAt(tags[1..], throws, k - 1);
    }
  }

  /**
   * `revalidateServerCache`: the tags are invalidated in order until one
   * throws; success is reported only when none does.
   */
  function RevalidateServerCacheOp(log: seq<string>, slug: string, categoryNames: seq<string>,
                                   generateSlug: string -> string, throws: string -> bool): (o: (seq<string>, bool))
    ensures var all := ServerCacheTags(slug, categoryNames, generateSlug);
            && (o.1 <==> forall i :: 0 <= i < |all| ==> !throws(all[i]))
            && (o.1 ==> o.0 == log + all)
            && (exists k :: 0 <= k <= |all| && o.0 == log + all[..k])
  {
    var all := ServerCacheTags(slug, categoryNames, generateSlug);
    match FirstThrowing(all, throws)
    case None =>
      assert all[..|all|] == all;
      (log + all, true)
    case Some(k) => (log + all[..k], false)
  }

  /** The invalidation stops at the first tag that throws. */
  lemma RevalidateStopsAt(log: seq<string>, slug: string, categoryNames: seq<string>,
                          generateSlug: string -> string, throws: string -> bool, k: nat)
    requires var all := ServerCacheTags(slug, categoryNames, generateSlug);
             k < |all| && throws(all[k]) && NoneThrow(all[..k], throws)
    ensures RevalidateServerCacheOp(log, slug, categoryNames, generateSlug, throws)
            == (log + ServerCacheTags(slug, categoryNames, generateSlug)[..k], false)
  {
    var all := ServerCacheTags(slug, categoryNames, generateSlug);
    assert forall i :: 0 <= i < k ==> all[..k][i] == all[i];
    FirstThrowingAt(all, throws, k);
  }

  method RevalidateServerCache(log: TagLog, slug: string, categoryNames: seq<string>,
                               generateSlug: string -> string, throws: string -> bool)
    returns (success: bool)
    modifies log
    ensures (log.tags, success) == RevalidateServerCacheOp(old(log.tags), slug, categoryNames, generateSlug, throws)
  {
    ghost var all := ServerCacheTags(slug, categoryNames, generateSlug);
    ghost var start := log.tags;
    var ok := log.Invalidate(SERVERS_TAG, throws);
    if !ok {
      RevalidateStopsAt(start, slug, categoryNames, generateSlug, throws, 0);
      assert start + all[..0] == start;
      return false;
    }
    assert log.tags == start + all[..1];
    ok := log.Invalidate(ServerTag(slug), throws);
    if !ok {
      assert NoneThrow(all[..1], throws);
      RevalidateStopsAt(start, slug, categoryNames, generateSlug, throws, 1);
      return false;
    }
    assert log.tags == start + all[..2];
    ok := InvalidateCategories(log, categoryNames, generateSlug, throws);
    SettleAfterServerTags(start, slug, categoryNames, generateSlug, throws);
    return ok;
  }

  /** The loop over the category names: each tag is invalidated until one throws. */
  method InvalidateCategories(log: TagLog, categoryNames: seq<string>, generateSlug: string -> string,
                              throws: string -> bool)
    returns (ok: bool)
    modifies log
    ensures var tags := CategoryTags(categoryNames, generateSlug);
            && (ok <==> FirstThrowing(tags, throws).None?)
            && (ok ==> log.tags == old(log.tags) + tags)
            && (!ok ==> log.tags == old(log.tags) + tags[..FirstThrowing(tags, throws).value])
  {
    ghost var tags := CategoryTags(categoryNames, generateSlug);
    ghost var start := log.tags;
    for i := 0 to |categoryNames|
      invariant log.tags == start + tags[..i]
      invariant NoneThrow(tags[..i], throws)
    {
      var tag := CategoryTag(generateSlug(categoryNames[i]));
      assert tag == tags[i];
      ok := log.Invalidate(tag, throws);
      if !ok {
        FirstThrowingAfter(tags, throws, i);
        return false;
      }
      assert tags[..i + 1] == tags[..i] + [tag];
      NoneThrowSnoc(tags[..i], tag, throws);
    }
    assert tags[..|categoryNames|] == tags;
    assert FirstThrowing(tags, throws).None?;
    return true;
  }

  /** Once both server tags succeed, the first throwing category tag decides the invalidation. */
  lemma SettleAfterServerTags(start: seq<string>, slug: string, categoryNames: seq<string>,
                              generateSlug: string -> string, throws: string -> bool)
    requires !throws(SERVERS_TAG) && !throws(ServerTag(slug))
    ensures var cats := CategoryTags(categoryNames, generateSlug);
            FirstThrowing(cats, throws).None? ==>
            RevalidateServerCacheOp(start, slug, categoryNames, generateSlug, throws)
            == (start + [SERVERS_TAG, ServerTag(slug)] + cats, true)
    ensures var cats := CategoryTags(categoryNames, generateSlug);
            FirstThrowing(cats, throws).Some? ==>
            RevalidateServerCacheOp(start, slug, categoryNames, generateSlug, throws)
            == (start + [SERVERS_TAG, ServerTag(slug)] + cats[..FirstThrowing(cats, throws).value], false)
  {
    var head := [SERVERS_TAG, ServerTag(slug)];
    var cats := CategoryTags(categoryNames, generateSlug);
    var all := ServerCacheTags(slug, categoryNames, generateSlug);
    assert all == head + cats;
    assert NoneThrow(head, throws);
    FirstThrowingAppend(head, cats, throws);
    if FirstThrowing(cats, throws).None? {
      assert start + (head + cats) == start + head + cats;
    } else {
      var k := FirstThrowing(cats, throws).value;
      assert all[..2 + k] == head + cats[..k];
      assert start + (head + cats[..k]) == start + head + cats[..k];
    }
  }

  /** Past a prefix where nothing throws, the first throwing tag is the first of the rest. */
  lemma {:induction false} FirstThrowingAppend(a: seq<string>, b: seq<string>, throws: string -> bool)
    requires NoneThrow(a, throws)
    ensures FirstThrowing(b, throws).None? ==> FirstThrowing(a + b, throws).None?
    ensures FirstThrowing(b, throws).Some? ==> FirstThrowing(a + b, throws) == Some(|a| + FirstThrowing(b, throws).value)
    decreases |a|
  {
    if a != [] {
      assert (a + b)[0] == a[0];
      assert (a + b)[1..] == a[1..] + b;
      assert NoneThrow(a[1..], throws) by {
        forall i | 0 <= i < |a[1..]|
          ensures !throws(a[1..][i])
        {
          assert a[1..][i] == a[i + 1];
        }
      }
      FirstThrowingAppend(a[1..], b, throws);
    } else {
      assert a + b == b;
    }
  }

  /** A tag that throws after a prefix of tags that succeed is the first to throw. */
  lemma FirstThrowingAfter(tags: seq<string>, throws: string -> bool, k: nat)
    requires k < |tags| && NoneThrow(tags[..k], throws) && throws(tags[k])
    ensures FirstThrowing(tags, throws) == Some(k)
  {
    assert forall j :: 0 <= j < k ==> tags[..k][j] == tags[j];
    FirstThrowingAt(tags, throws, k);
  }

  lemma NoneThrowSnoc(tags: seq<string>, tag: string, throws: string -> bool)
    requires NoneThrow(tags, throws) && !throws(tag)
    ensures NoneThrow(tags + [tag], throws)
  {
    assert forall i :: 0 <= i < |tags| ==> (tags + [tag])[i] == tags[i];
  }

  /** With the default (no category names) exactly the two server tags are invalidated. */
  lemma DefaultInvalidatesTwoTags(log: seq<string>, slug: string, generateSlug: string -> string, throws: string -> bool)
    requires !throws(SERVERS_TAG) && !throws(ServerTag(slug))
    ensures RevalidateServerCacheOp(log, slug, [], generateSlug, throws) == (log + [SERVERS_TAG, ServerTag(slug)], true)
  {
    var all := ServerCacheTags(slug, [], generateSlug);
    assert all == [SERVERS_TAG, ServerTag(slug)];
  }
}
