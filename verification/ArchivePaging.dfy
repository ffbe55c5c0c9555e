/** Archive queries in pages: the find of plugins/mod_storage_internal.lua and the query handler of
    plugins/mod_muc_mam.lua (XEP-0313 with the result sets of XEP-0059).

    An archive is the list of its items in the order they were added. Stored items have keys.
 */
module ArchivePaging {
  import opened Wrappers

  datatype Item = Item(key: string, when: real, with: string, content: string)

  /** What an archive query asks for; `limit`, cursors and direction come with `Find`. */
  datatype Criteria = Criteria(key: Option<string>, with: Option<string>, start: Option<real>, end: Option<real>)

  predicate Matches(c: Criteria, x: Item) {
    && (c.key.Some? ==> x.key == c.key.value)
    && (c.with.Some? ==> x.with == c.with.value)
    && (c.start.Some? ==> x.when >= c.start.value)
    && (c.end.Some? ==> x.when <= c.end.value)
  }

  // The tests of a query, one filter each
  function KeyTest(c: Criteria): Item -> bool {
    (x: Item) => c.key.Some? ==> x.key == c.key.value
  }

  function WithTest(c: Criteria): Item -> bool {
    (x: Item) => c.with.Some? ==> x.with == c.with.value
  }

  function StartTest(c: Criteria): Item -> bool {
    (x: Item) => c.start.Some? ==> x.when >= c.start.value
  }

  function EndTest(c: Criteria): Item -> bool {
    (x: Item) => c.end.Some? ==> x.when <= c.end.value
  }

  function Filter(items: seq<Item>, p: Item -> bool): seq<Item> {
    if items == [] then [] else
    var n := |items| - 1;
    if p(items[n]) then Filter(items[..n], p) + [items[n]] else Filter(items[..n], p)
  }

  /** The matching items, in archive order. */
  function Matching(items: seq<Item>, c: Criteria): seq<Item> {
    Filter(items, MatchTest(c))
  }

  function MatchTest(c: Criteria): Item -> bool {
    (x: Item) => Matches(c, x)
  }

  lemma {:induction false} FilterTwice(items: seq<Item>, p: Item -> bool, q: Item -> bool, r: Item -> bool)
    requires forall x :: r(x) <==> p(x) && q(x)
    ensures Filter(Filter(items, p), q) == Filter(items, r)
  {
    if items != [] {
      var n := |items| - 1;
      FilterTwice(items[..n], p, q, r);
      var kept := Filter(items[..n], p);
      if p(items[n]) {
        assert (kept + [items[n]])[..|kept|] == kept;
      }
    }
  }

  lemma {:induction false} FilterAppend(a: seq<Item>, b: seq<Item>, p: Item -> bool)
    ensures Filter(a + b, p) == Filter(a, p) + Filter(b, p)
  {
    if b == [] {
      assert a + b == a;
    } else {
      var n := |b| - 1;
      FilterAppend(a, b[..n], p);
      assert (a + b)[..|a| + n] == a + b[..n];
    }
  }

  function Reverse(items: seq<Item>): (r: seq<Item>)
    ensures |r| == |items|
  {
    seq(|items|, i requires 0 <= i < |items| => items[|items| - 1 - i])
  }

  /** How many items a cursor skips: those up to and including the one with its key, none if there is no such item. */
  function Skip(items: seq<Item>, cursor: Option<string>): (n: nat)
    ensures n <= |items|
  {
    if cursor.None? then 0 else SkipFrom(items, cursor.value, 0)
  }

  function SkipFrom(items: seq<Item>, key: string, i: nat): (n: nat)
    requires i <= |items|
    ensures n <= |items|
    decreases |items| - i
  {
    if i == |items| then 0 else if items[i].key == key then i + 1 else SkipFrom(items, key, i + 1)
  }

  /** At most `n` items from position `i`. */
  function Window(items: seq<Item>, i: nat, n: nat): seq<Item>
    requires i <= |items|
  {
    if |items| - i > n then items[i..i + n] else items[i..]
  }

  /** array.filter */
  method FilterItems(items: seq<Item>, p: Item -> bool) returns (kept: seq<Item>)
    ensures kept == Filter(items, p)
  {
    kept := [];
    for i := 0 to |items|
      invariant kept == Filter(items[..i], p)
    {
      assert items[..i + 1][..i] == items[..i];
      if p(items[i]) {
        kept := kept + [items[i]];
      }
    }
    assert items[..|items|] == items;
  }

  /** Applies one test of a query, if the query has it. */
  method Narrow(items: seq<Item>, given: bool, p: Item -> bool) returns (kept: seq<Item>)
    requires !given ==> forall x :: p(x)
    ensures kept == Filter(items, p)
  {
    if given {
      kept := FilterItems(items, p);
    } else {
      FilterAll(items, p);
      kept := items;
    }
  }

  /** A test that accepts everything keeps everything. */
  lemma {:induction false} FilterAll(items: seq<Item>, p: Item -> bool)
    requires forall x :: p(x)
    ensures Filter(items, p) == items
  {
    if items != [] {
      FilterAll(items[..|items| - 1], p);
    }
  }

  /** The tests of a query one after the other select the matching items. */
  lemma TestsCombine(archive: seq<Item>, c: Criteria)
    ensures Filter(Filter(Filter(Filter(archive, KeyTest(c)), WithTest(c)), StartTest(c)), EndTest(c)) == Matching(archive, c)
  {
    var p12 := (x: Item) => KeyTest(c)(x) && WithTest(c)(x);
    var p123 := (x: Item) => p12(x) && StartTest(c)(x);
    FilterTwice(archive, KeyTest(c), WithTest(c), p12);
    FilterTwice(archive, p12, StartTest(c), p123);
    FilterTwice(archive, p123, EndTest(c), MatchTest(c));
  }

  method Select(archive: seq<Item>, c: Criteria) returns (items: seq<Item>)
    ensures items == Matching(archive, c)
  {
    items := Narrow(archive, c.key.Some?, KeyTest(c));
    items := Narrow(items, c.with.Some?, WithTest(c));
    items := Narrow(items, c.start.Some?, StartTest(c));
    items := Narrow(items, c.end.Some?, EndTest(c));
    TestsCombine(archive, c);
  }

  /** The position a cursor leads to. */
  method Locate(items: seq<Item>, cursor: Option<string>) returns (i: nat)
    ensures i == Skip(items, cursor)
  {
    i := 0;
    if cursor.Some? {
      var j := 0;
      while j < |items|
        invariant 0 <= j <= |items| && i == 0
        invariant SkipFrom(items, cursor.value, 0) == SkipFrom(items, cursor.value, j)
      {
        if items[j].key == cursor.value {
          return j + 1;
        }
        j := j + 1;
      }
    }
  }

  /** archive:find. The cursor counts as `after`, or as `before` in a reverse query. */
  method Find(archive: seq<Item>, c: Criteria, cursor: Option<string>, reverse: bool, limit: nat)
    returns (found: seq<Item>, count: nat)
    ensures count == |Matching(archive, c)|
    ensures found == Found(Matching(archive, c), cursor, reverse, limit)
  {
    var items := Select(archive, c);
    count := |items|;
    if reverse {
      items := Reverse(items);
    }
    var i := Locate(items, cursor);
    found := if |items| - i > limit then items[i..i + limit] else items[i..];
  }

  /** The part of the matching items that a query gets, in the direction of the query. */
  function Found(matching: seq<Item>, cursor: Option<string>, reverse: bool, limit: nat): seq<Item> {
    var items := if reverse then Reverse(matching) else matching;
    Window(items, Skip(items, cursor), limit)
  }

  // ---- One page ----

  datatype Page = Page(results: seq<Item>, first: Option<string>, last: Option<string>, complete: bool, total: nat)

  function Min(a: nat, b: nat): nat {
    if a < b then a else b
  }

  function FirstKey(items: seq<Item>): Option<string> {
    if items == [] then None else Some(items[0].key)
  }

  function LastKey(items: seq<Item>): Option<string> {
    if items == [] then None else Some(items[|items| - 1].key)
  }

  /** The page after a cursor: the items next to it, and whether there are no more. */
  function PageAfter(matching: seq<Item>, cursor: Option<string>, max: nat): Page {
    var rest := matching[Skip(matching, cursor)..];
    var results := rest[..Min(max, |rest|)];
    Page(results, FirstKey(results), LastKey(results), |rest| <= max, |matching|)
  }

  /** The page before a cursor, in archive order too. */
  function PageBefore(matching: seq<Item>, cursor: Option<string>, max: nat): Page {
    var items := Reverse(matching);
    var rest := items[Skip(items, cursor)..];
    var results := Reverse(rest[..Min(max, |rest|)]);
    Page(results, FirstKey(results), LastKey(results), |rest| <= max, |matching|)
  }

  /** The loop of the handler over what was found. */
  method TakePage(found: seq<Item>, max: nat)
    returns (taken: seq<Item>, first: Option<string>, last: Option<string>, complete: bool)
    ensures taken == found[..Min(max, |found|)] && first == FirstKey(taken) && last == LastKey(taken)
    ensures complete <==> |found| <= max
  {
    first, last, complete, taken := None, None, true, [];
    var count := 0;
    while count < |found|
      invariant 0 <= count <= |found| && complete && count <= max
      invariant taken == found[..count] && first == FirstKey(taken) && last == LastKey(taken)
    {
      if count + 1 > max {
        complete := false;
        break;
      }
      if first.None? {
        first := Some(found[count].key);
      }
      last := Some(found[count].key);
      taken := taken + [found[count]];
      count := count + 1;
    }
  }

  /** One item more than a page tells all there is to know about the rest. */
  lemma OneMoreIsEnough(items: seq<Item>, i: nat, max: nat)
    requires i <= |items|
    ensures var found, rest := Window(items, i, max + 1), items[i..];
      found[..Min(max, |found|)] == rest[..Min(max, |rest|)] && (|found| <= max <==> |rest| <= max)
  {
  }

  lemma KeysOfReverse(items: seq<Item>)
    ensures FirstKey(Reverse(items)) == LastKey(items) && LastKey(Reverse(items)) == FirstKey(items)
  {
  }

  /** The archive query handler. It asks for one item more than it returns, to see whether there are more. */
  method HandleQuery(archive: seq<Item>, c: Criteria, cursor: Option<string>, reverse: bool, max: nat) returns (page: Page)
    ensures page == if reverse then PageBefore(Matching(archive, c), cursor, max) else PageAfter(Matching(archive, c), cursor, max)
  {
    var found, total := Find(archive, c, cursor, reverse, max + 1);
    var taken, first, last, complete := TakePage(found, max);
    ghost var matching := Matching(archive, c);
    ghost var items := if reverse then Reverse(matching) else matching;
    OneMoreIsEnough(items, Skip(items, cursor), max);
    if reverse {
      KeysOfReverse(taken);
      taken := Reverse(taken);
      first, last := last, first;
    }
    page := Page(taken, first, last, complete, total);
  }

  // ---- All pages ----

  ghost predicate UniqueKeys(items: seq<Item>) {
    forall i, j :: 0 <= i < j < |items| ==> items[i].key != items[j].key
  }

  /** A list at different times: items are only added at its end, under new keys. */
  ghost predicate Growing(list: nat -> seq<Item>) {
    && (forall k: nat {:trigger UniqueKeys(list(k))} :: UniqueKeys(list(k)))
    && (forall j: nat, k: nat {:trigger Extends(list(j), list(k))} :: j <= k ==> Extends(list(j), list(k)))
  }

  ghost predicate Extends(a: seq<Item>, b: seq<Item>) {
    a <= b
  }

  lemma {:induction false} FilterKeepsUnique(items: seq<Item>, p: Item -> bool)
    requires UniqueKeys(items)
    ensures UniqueKeys(Filter(items, p))
    ensures forall x :: x in Filter(items, p) ==> x in items
  {
    if items != [] {
      var n := |items| - 1;
      FilterKeepsUnique(items[..n], p);
      var kept := Filter(items[..n], p);
      forall i | 0 <= i < |kept| ensures kept[i].key != items[n].key {
        assert kept[i] in items[..n];
      }
    }
  }

  /** The matching items of an archive at different times. */
  ghost function MatchingOver(archive: nat -> seq<Item>, c: Criteria): nat -> seq<Item> {
    (k: nat) => Matching(archive(k), c)
  }

  lemma MatchingGrows(archive: nat -> seq<Item>, c: Criteria)
    requires Growing(archive)
    ensures Growing(MatchingOver(archive, c))
  {
    forall k: nat ensures UniqueKeys(Matching(archive(k), c)) {
      assert UniqueKeys(archive(k));
      FilterKeepsUnique(archive(k), MatchTest(c));
    }
    forall j: nat, k: nat | j <= k ensures Extends(Matching(archive(j), c), Matching(archive(k), c)) {
      assert Extends(archive(j), archive(k));
      var more := archive(k)[|archive(j)|..];
      assert archive(k) == archive(j) + more;
      FilterAppend(archive(j), more, MatchTest(c));
    }
  }

  /** The cursor at an item leads to the position after it. */
  lemma {:induction false} SkipTo(items: seq<Item>, n: nat, i: nat)
    requires UniqueKeys(items) && i < n <= |items|
    ensures SkipFrom(items, items[n - 1].key, i) == n
    decreases n - i
  {
    if i < n - 1 {
      SkipTo(items, n, i + 1);
    }
  }

  /** A page continues what was collected before it. */
  lemma NextPage(matching: seq<Item>, have: seq<Item>, max: nat)
    requires UniqueKeys(matching) && have <= matching
    ensures var page := PageAfter(matching, LastKey(have), max);
      && have + page.results <= matching
      && (page.complete <==> have + page.results == matching)
      && (!page.complete ==> |page.results| == max)
  {
    var n := |have|;
    if n > 0 {
      assert have[n - 1] == matching[n - 1];
      SkipTo(matching, n, 0);
    }
    assert Skip(matching, LastKey(have)) == n;
    var rest := matching[n..];
    assert matching == have + rest;
  }

  /** What a client has after `k` pages, each queried at its own moment and with the last item
      it has as `after`. */
  ghost function Collected(matching: nat -> seq<Item>, max: nat, k: nat): seq<Item> {
    if k == 0 then [] else
    var have := Collected(matching, max, k - 1);
    have + PageAfter(matching(k - 1), LastKey(have), max).results
  }

  lemma {:induction false} CollectedIsPrefix(matching: nat -> seq<Item>, max: nat, k: nat)
    requires Growing(matching)
    ensures Collected(matching, max, k) <= matching(k)
  {
    if k > 0 {
      CollectedIsPrefix(matching, max, k - 1);
      assert UniqueKeys(matching(k - 1)) && Extends(matching(k - 1), matching(k));
      NextPage(matching(k - 1), Collected(matching, max, k - 1), max);
    }
  }

  /** Page after page, a client gets every matching item exactly once and in archive order, even while
      the archive grows; a page is marked complete exactly when there is nothing left, and every
      other page is full. */
  lemma PagingForward(archive: nat -> seq<Item>, c: Criteria, max: nat, k: nat)
    requires Growing(archive)
    ensures var matching := MatchingOver(archive, c);
      var have := Collected(matching, max, k + 1);
      var page := PageAfter(matching(k), LastKey(Collected(matching, max, k)), max);
      && have <= matching(k)
      && (page.complete <==> have == matching(k))
      && (!page.complete ==> |page.results| == max)
  {
    MatchingGrows(archive, c);
    var matching := MatchingOver(archive, c);
    CollectedIsPrefix(matching, max, k);
    assert UniqueKeys(matching(k));
    NextPage(matching(k), Collected(matching, max, k), max);
  }

  /** Backwards, the cursor at an item leads past it from the other end. */
  lemma SkipBack(items: seq<Item>, n: nat)
    requires UniqueKeys(items) && n < |items|
    ensures Skip(Reverse(items), Some(items[n].key)) == |items| - n
  {
    var r := Reverse(items);
    var i := |items| - n;
    assert r[i - 1] == items[n];
    forall a, b | 0 <= a < b < |r| ensures r[a].key != r[b].key {
      assert r[a] == items[|items| - 1 - a] && r[b] == items[|items| - 1 - b];
    }
    SkipTo(r, i, 0);
  }

  /** A page before what was collected, of an archive that may have grown since: `n` items are still missing. */
  lemma PreviousPage(matching: seq<Item>, n: nat, max: nat, cursor: Option<string>)
    requires UniqueKeys(matching) && n <= |matching|
    requires if n == |matching| then cursor == None else cursor == Some(matching[n].key)
    ensures var page := PageBefore(matching, cursor, max);
      && page.results == matching[n - Min(max, n)..n]
      && (page.complete <==> n <= max)
  {
    if n < |matching| {
      SkipBack(matching, n);
    }
    assert Skip(Reverse(matching), cursor) == |matching| - n;
    ReverseTail(matching, n);
    ReverseHead(matching[..n], Min(max, n));
    ReverseTwice(matching[..n][n - Min(max, n)..]);
    assert matching[..n][n - Min(max, n)..] == matching[n - Min(max, n)..n];
  }

  lemma ReverseTail(items: seq<Item>, n: nat)
    requires n <= |items|
    ensures Reverse(items)[|items| - n..] == Reverse(items[..n])
  {
  }

  lemma ReverseHead(items: seq<Item>, n: nat)
    requires n <= |items|
    ensures Reverse(items)[..n] == Reverse(items[|items| - n..])
  {
  }

  lemma ReverseTwice(items: seq<Item>)
    ensures Reverse(Reverse(items)) == items
  {
  }

  /** What a client has after `k` pages of a reverse query, each queried with the first item it has as `before`. */
  ghost function CollectedBack(matching: nat -> seq<Item>, max: nat, k: nat): seq<Item> {
    if k == 0 then [] else
    var have := CollectedBack(matching, max, k - 1);
    PageBefore(matching(k - 1), FirstKey(have), max).results + have
  }

  /** The pages up to the k-th were not complete, so the client went on. */
  ghost predicate WentOn(matching: nat -> seq<Item>, max: nat, k: nat) {
    k == 0 ||
    (WentOn(matching, max, k - 1) &&
     !PageBefore(matching(k - 1), FirstKey(CollectedBack(matching, max, k - 1)), max).complete)
  }

  ghost predicate EndOf(have: seq<Item>, list: seq<Item>) {
    |have| <= |list| && have == list[|list| - |have|..]
  }

  lemma EndGrows(have: seq<Item>, list: seq<Item>, m: nat)
    requires EndOf(have, list) && m <= |list| - |have|
    ensures var n := |list| - |have|;
      EndOf(list[m..n] + have, list) && (list[m..n] + have == list <==> m == 0)
  {
  }

  /** One more page of a reverse query, where `have` ends the list as it was first queried. */
  lemma OnePageBack(first: seq<Item>, now: seq<Item>, have: seq<Item>, max: nat)
    requires UniqueKeys(now) && Extends(first, now) && EndOf(have, first)
    requires have == [] ==> first == now
    ensures var page := PageBefore(now, FirstKey(have), max);
      && EndOf(page.results + have, first)
      && (page.complete <==> page.results + have == first)
      && (!page.complete ==> |page.results| == max)
  {
    var n := |first| - |have|;
    if have != [] {
      assert have[0] == first[n] == now[n];
    }
    PreviousPage(now, n, max, FirstKey(have));
    var m := n - Min(max, n);
    assert now[m..n] == first[m..n];
    EndGrows(have, first, m);
  }

  lemma {:induction false} CollectedIsSuffix(matching: nat -> seq<Item>, max: nat, k: nat)
    requires Growing(matching) && max >= 1 && WentOn(matching, max, k)
    ensures EndOf(CollectedBack(matching, max, k), matching(0))
    ensures k > 0 ==> CollectedBack(matching, max, k) != []
  {
    if k > 0 {
      CollectedIsSuffix(matching, max, k - 1);
      var first, now, have := matching(0), matching(k - 1), CollectedBack(matching, max, k - 1);
      assert UniqueKeys(now) && Extends(first, now);
      OnePageBack(first, now, have, max);
      assert CollectedBack(matching, max, k) == PageBefore(now, FirstKey(have), max).results + have;
    }
  }

  /** The reverse form pages the items that matched at the first query, backwards and each exactly
      once, whatever is added meanwhile; a page is marked complete exactly when it reaches the
      beginning. A client goes on only while pages are not complete. */
  lemma PagingBackward(archive: nat -> seq<Item>, c: Criteria, max: nat, k: nat)
    requires Growing(archive) && max >= 1 && WentOn(MatchingOver(archive, c), max, k)
    ensures var matching := MatchingOver(archive, c);
      var have := CollectedBack(matching, max, k + 1);
      var page := PageBefore(matching(k), FirstKey(CollectedBack(matching, max, k)), max);
      && EndOf(have, matching(0))
      && (page.complete <==> have == matching(0))
      && (!page.complete ==> |page.results| == max)
  {
    MatchingGrows(archive, c);
    var matching := MatchingOver(archive, c);
    CollectedIsSuffix(matching, max, k);
    assert UniqueKeys(matching(k)) && Extends(matching(0), matching(k));
    OnePageBack(matching(0), matching(k), CollectedBack(matching, max, k), max);
  }

  // ---- Cursors that moved or are gone ----

  /** The item was collected before, under its key. */
  ghost predicate Seen(have: seq<Item>, x: Item) {
    exists y :: y in have && y.key == x.key
  }

  ghost function Unseen(have: seq<Item>): Item -> bool {
    (x: Item) => !Seen(have, x)
  }

  /** What a client still has to get. */
  ghost function Missing(matching: seq<Item>, have: seq<Item>): seq<Item> {
    Filter(matching, Unseen(have))
  }

  ghost predicate AllOf(items: seq<Item>, t: Item -> bool) {
    forall i :: 0 <= i < |items| ==> t(items[i])
  }

  ghost predicate NoneOf(items: seq<Item>, t: Item -> bool) {
    forall i :: 0 <= i < |items| ==> !t(items[i])
  }

  lemma {:induction false} FilterHolds(items: seq<Item>, t: Item -> bool)
    ensures AllOf(Filter(items, t), t)
    ensures AllOf(items, t) ==> Filter(items, t) == items
    ensures Filter(items, t) == [] <==> NoneOf(items, t)
  {
    if items != [] {
      FilterHolds(items[..|items| - 1], t);
    }
  }

  /** What is selected from two lists is the second one if and only if nothing is selected from the first and all
      from the second. */
  lemma FilterIsSecond(a: seq<Item>, b: seq<Item>, t: Item -> bool)
    ensures Filter(a + b, t) == b <==> NoneOf(a, t) && AllOf(b, t)
  {
    FilterAppend(a, b, t);
    FilterHolds(a + b, t);
    FilterHolds(a, t);
    FilterHolds(b, t);
  }

  /** All items before position `p` were collected, and none from there on. */
  ghost predicate Parted(matching: seq<Item>, have: seq<Item>, p: nat)
    requires p <= |matching|
  {
    NoneOf(matching[..p], Unseen(have)) && AllOf(matching[p..], Unseen(have))
  }

  /** For a client with any collection and any cursor, in an archive that may have changed in any way: pages of
      every size hold the next missing items if and only if the items up to the cursor were collected and none
      after it was. */
  lemma PageContinues(matching: seq<Item>, have: seq<Item>, cursor: Option<string>)
    ensures (forall max: nat :: PageAfter(matching, cursor, max).results == Beginning(Missing(matching, have), max)) <==>
      Parted(matching, have, Skip(matching, cursor))
  {
    var p := Skip(matching, cursor);
    FilterIsSecond(matching[..p], matching[p..], Unseen(have));
    assert matching == matching[..p] + matching[p..];
    var rest, missing := matching[p..], Missing(matching, have);
    if forall max: nat :: PageAfter(matching, cursor, max).results == Beginning(missing, max) {
      var max := |rest| + |missing|;
      assert PageAfter(matching, cursor, max).results == rest && Beginning(missing, max) == missing;
    }
  }

  function Beginning(items: seq<Item>, max: nat): seq<Item> {
    items[..Min(max, |items|)]
  }

  lemma {:induction false} SkipGone(items: seq<Item>, key: string, i: nat)
    requires i <= |items| && forall j :: i <= j < |items| ==> items[j].key != key
    ensures SkipFrom(items, key, i) == 0
    decreases |items| - i
  {
    if i < |items| {
      SkipGone(items, key, i + 1);
    }
  }

  /** A cursor whose item is not among the matching ones gets the first page again. */
  lemma GoneCursorRestarts(matching: seq<Item>, key: string, max: nat)
    requires forall x :: x in matching ==> x.key != key
    ensures PageAfter(matching, Some(key), max) == PageAfter(matching, None, max)
  {
    forall j | 0 <= j < |matching| ensures matching[j].key != key {
      assert matching[j] in matching;
    }
    SkipGone(matching, key, 0);
  }

  /** When the item of the cursor was added again under its key, it is the last one, and the client is told that
      nothing remains, whatever lies between. */
  lemma MovedCursorEnds(archive: seq<Item>, c: Criteria, item: Item, max: nat)
    requires UniqueKeys(archive) && archive != [] && archive[|archive| - 1] == item && Matches(c, item)
    ensures var page := PageAfter(Matching(archive, c), Some(item.key), max);
      page.results == [] && page.complete
  {
    var matching := Matching(archive, c);
    FilterKeepsUnique(archive, MatchTest(c));
    assert matching[|matching| - 1] == item;
    SkipTo(matching, |matching|, 0);
  }

  lemma FilterTwo(x: Item, y: Item, t: Item -> bool)
    ensures Filter([x, y], t) == (if t(x) then [x] else []) + (if t(y) then [y] else [])
  {
    var one, two := [x], [x, y];
    assert one[..0] == [] && two[..1] == one;
    assert Filter(one, t) == if t(x) then [x] else [];
  }

  /** A client has `x`; then `x` is added again, behind an item `y` that the client never gets. */
  method LoseItem(x: Item, y: Item, c: Criteria, max: nat) returns (archive: seq<Item>, page: Page)
    requires x.key != y.key && Matches(c, x) && Matches(c, y)
    ensures archive == [y, x] && page.results == [] && page.complete && Missing(Matching(archive, c), [x]) == [y]
  {
    FilterTwo(x, y, OtherKey(x.key));
    archive := Append([x, y], x);
    page := HandleQuery(archive, c, Some(x.key), false, max);
    MovedCursorEnds(archive, c, x, max);
    FilterTwo(y, x, MatchTest(c));
    FilterTwo(y, x, Unseen([x]));
    assert Seen([x], x) && !Seen([x], y);
  }

  // ---- Adding ----

  function OtherKey(key: string): Item -> bool {
    (x: Item) => x.key != key
  }

  /** archive:append with a key: an item under the same key is replaced, and the new one goes to the end. */
  method Append(archive: seq<Item>, item: Item) returns (archive': seq<Item>)
    requires UniqueKeys(archive)
    ensures UniqueKeys(archive') && archive' == Filter(archive, OtherKey(item.key)) + [item]
    ensures forall x :: x in archive' <==> x == item || (x in archive && x.key != item.key)
    ensures (forall x :: x in archive ==> x.key != item.key) ==> archive' == archive + [item]
  {
    var other := OtherKey(item.key);
    var kept := FilterItems(archive, other);
    FilterKeepsUnique(archive, other);
    FilterContents(archive, other);
    archive' := kept + [item];
    forall i | 0 <= i < |kept| ensures kept[i].key != item.key {
      assert kept[i] in kept;
    }
  }

  lemma {:induction false} FilterContents(items: seq<Item>, p: Item -> bool)
    ensures forall x :: x in Filter(items, p) <==> x in items && p(x)
    ensures (forall x :: x in items ==> p(x)) ==> Filter(items, p) == items
  {
    if items != [] {
      var n := |items| - 1;
      FilterContents(items[..n], p);
      assert items == items[..n] + [items[n]];
    }
  }
}
