/** What the three filter queries share: walking a table in its stored key
    order, keeping the records that match, and cutting a page out of the
    matches by offset or by a numeric page key. */
module Pagination {
  import opened Base
  import opened Strings

  // ----- walking and filtering -----

  /** The table's records in walk order. */
  function ValuesAt<K, V>(m: map<K, V>, walk: seq<K>): (vs: seq<V>)
    requires forall i :: 0 <= i < |walk| ==> walk[i] in m
    ensures |vs| == |walk|
    ensures forall i :: 0 <= i < |walk| ==> vs[i] == m[walk[i]]
  {
    if walk == [] then [] else ValuesAt(m, walk[..|walk| - 1]) + [m[walk[|walk| - 1]]]
  }

  /** The elements of `s` that satisfy `keep`, in their order. */
  function Keep<T>(s: seq<T>, keep: T -> bool): (r: seq<T>)
    ensures |r| <= |s|
  {
    if s == [] then [] else Keep(s[..|s| - 1], keep) + (if keep(s[|s| - 1]) then [s[|s| - 1]] else [])
  }

  /** `walk` lists every key of the table, each once: the store's walk. */
  predicate WalksTable<K, V>(m: map<K, V>, walk: seq<K>)
  {
    && (forall i :: 0 <= i < |walk| ==> walk[i] in m)
    && (forall key :: key in m ==> key in walk)
    && (forall i, j :: 0 <= i < j < |walk| ==> walk[i] != walk[j])
  }

  /** The walk yields exactly the table's records. */
  lemma ValuesAtCovers<K, V>(m: map<K, V>, walk: seq<K>, v: V)
    requires WalksTable(m, walk)
    ensures v in ValuesAt(m, walk) <==> v in m.Values
  {
    var vs := ValuesAt(m, walk);
    if v in m.Values {
      var key :| key in m && m[key] == v;
      var i :| 0 <= i < |walk| && walk[i] == key;
      assert vs[i] == v;
    }
    if v in vs {
      var i :| 0 <= i < |vs| && vs[i] == v;
      assert m[walk[i]] in m.Values;
    }
  }

  /** Keep selects exactly the elements that satisfy the filter. */
  lemma {:induction false} KeepMembers<T>(s: seq<T>, keep: T -> bool, x: T)
    ensures x in Keep(s, keep) <==> x in s && keep(x)
  {
    if s != [] {
      KeepMembers(s[..|s| - 1], keep, x);
      assert s == s[..|s| - 1] + [s[|s| - 1]];
    }
  }

  /** Keep preserves order: the kept elements form a subsequence, so the
      result is a subsequence of the input at increasing positions. */
  lemma {:induction false} KeepAppend<T>(s: seq<T>, t: seq<T>, keep: T -> bool)
    ensures Keep(s + t, keep) == Keep(s, keep) + Keep(t, keep)
    decreases |t|
  {
    if t == [] {
      assert s + t == s;
    } else {
      var last := t[|t| - 1];
      assert (s + t)[..|s + t| - 1] == s + t[..|t| - 1];
      KeepAppend(s, t[..|t| - 1], keep);
    }
  }

  /** One more step of the walk appends the next record when it is kept. */
  lemma CollectStep<K, V>(m: map<K, V>, walk: seq<K>, i: nat, keep: V -> bool)
    requires i < |walk| && forall j :: 0 <= j < |walk| ==> walk[j] in m
    ensures Keep(ValuesAt(m, walk[..i + 1]), keep)
         == Keep(ValuesAt(m, walk[..i]), keep) + (if keep(m[walk[i]]) then [m[walk[i]]] else [])
  {
    assert walk[..i + 1][..i] == walk[..i];
    var vs := ValuesAt(m, walk[..i + 1]);
    assert vs[..|vs| - 1] == ValuesAt(m, walk[..i]);
  }

  /** Walking the table once, appending each record the filter keeps. */
  method CollectMatching<K, V>(m: map<K, V>, walk: seq<K>, keep: V -> bool) returns (filtered: seq<V>)
    requires forall i :: 0 <= i < |walk| ==> walk[i] in m
    ensures filtered == Keep(ValuesAt(m, walk), keep)
  {
    filtered := [];
    for i := 0 to |walk|
      invariant filtered == Keep(ValuesAt(m, walk[..i]), keep)
    {
      var v := m[walk[i]];
      CollectStep(m, walk, i, keep);
      if keep(v) {
        filtered := filtered + [v];
      }
    }
    assert walk[..|walk|] == walk;
  }

  // ----- pagination -----

  /** A page request: a numeric page key (a previous response's next key),
      otherwise an offset; a limit, 0 for everything; and whether to count
      the total. */
  datatype PageRequest = PageRequest(key: string, offset: U64, limit: U64, countTotal: bool)

  /** The response's next key ("" for none) and total (0 when not
      counted). */
  datatype PageResponse = PageResponse(nextKey: string, total: nat)

  datatype Page<T> = Page(items: seq<T>, pagination: PageResponse)

  /** The requested start: the parsed page key, otherwise the offset; a page
      key that is not a decimal uint64 is an invalid argument. */
  function RequestedStart(page: Option<PageRequest>): (r: Option<U64>)
    ensures page.None? ==> r == Some(0)
    ensures page.Some? && |page.value.key| == 0 ==> r == Some(page.value.offset)
    ensures page.Some? && |page.value.key| > 0 ==> r == ParseUint(page.value.key)
  {
    if page.None? then Some(0)
    else if |page.value.key| > 0 then ParseUint(page.value.key)
    else Some(page.value.offset)
  }

  /** The page of `filtered` a request selects. */
  function Paginate<T>(filtered: seq<T>, page: Option<PageRequest>): (r: Result<Page<T>>)
    ensures r.Err? <==> RequestedStart(page).None?
    ensures r.Err? ==> r.error == StatusInvalidArgument
  {
    match RequestedStart(page)
    case None => Err(StatusInvalidArgument)
    case Some(requested) =>
      var total := |filtered|;
      var limit := if page.Some? && page.value.limit > 0 then page.value.limit else total;
      var start := if requested > total then total else requested;
      var end := if limit < total - start then start + limit else total;
      var needTotal := page.None? || page.value.countTotal;
      Ok(Page(filtered[start..end],
              PageResponse(if end < total then FormatUint(end) else "", if needTotal then total else 0)))
  }

  /** A page is the slice from the requested start (clamped to the number
      of matches) of at most `limit` matches (all of them for limit 0); it
      has a next key exactly when matches remain after it, and reports the
      total when it was asked for or when no pagination was given. */
  lemma PaginateSlices<T>(filtered: seq<T>, page: Option<PageRequest>)
    requires Paginate(filtered, page).Ok?
    ensures var p := Paginate(filtered, page).value;
      var requested := RequestedStart(page).value;
      var start := if requested > |filtered| then |filtered| else requested;
      var limit := if page.Some? && page.value.limit > 0 then page.value.limit else |filtered|;
      && start + |p.items| <= |filtered|
      && p.items == filtered[start..start + |p.items|]
      && |p.items| == (if limit < |filtered| - start then limit else |filtered| - start)
      && (p.pagination.nextKey != "" <==> start + |p.items| < |filtered|)
      && (p.pagination.nextKey != "" && |filtered| <= MAX_U64 ==>
            ParseUint(p.pagination.nextKey) == Some(start + |p.items|))
      && p.pagination.total == (if page.None? || page.value.countTotal then |filtered| else 0)
  {
    var p := Paginate(filtered, page).value;
    var requested := RequestedStart(page).value;
    var start := if requested > |filtered| then |filtered| else requested;
    if p.pagination.nextKey != "" && |filtered| <= MAX_U64 {
      ParseFormatUint(start + |p.items|);
    }
  }

  /** A page holds only kept elements, and without pagination it holds all
      of them. */
  lemma {:induction false} PageOfKept<T>(all: seq<T>, keep: T -> bool, page: Option<PageRequest>, x: T)
    requires Paginate(Keep(all, keep), page).Ok?
    ensures x in Paginate(Keep(all, keep), page).value.items ==> x in all && keep(x)
    ensures page.None? && x in all && keep(x) ==> x in Paginate(Keep(all, keep), page).value.items
  {
    var filtered := Keep(all, keep);
    KeepMembers(all, keep, x);
    var p := Paginate(filtered, page).value;
    if page.None? {
      assert p.items == filtered[0..|filtered|] == filtered;
    }
  }

  /** Following the next key walks on without gaps or overlap: the page
      fetched with a page's next key (and the same limit) starts where that
      page ended, so together they are one contiguous run of matches. */
  lemma {:induction false} NextKeyContinues<T>(filtered: seq<T>, page: PageRequest)
    requires |filtered| <= MAX_U64
    requires Paginate(filtered, Some(page)).Ok?
    requires Paginate(filtered, Some(page)).value.pagination.nextKey != ""
    ensures var first := Paginate(filtered, Some(page)).value;
      var second := Paginate(filtered, Some(page.(key := first.pagination.nextKey)));
      var start := RequestedStart(Some(page)).value;
      && second.Ok?
      && start + |first.items| + |second.value.items| <= |filtered|
      && first.items + second.value.items == filtered[start..start + |first.items| + |second.value.items|]
  {
    var first := Paginate(filtered, Some(page)).value;
    var start := RequestedStart(Some(page)).value;
    var mid := start + |first.items|;
    var next := page.(key := first.pagination.nextKey);
    assert mid < |filtered| && first.items == filtered[start..mid] && RequestedStart(Some(next)) == Some(mid) by {
      FirstPageEndsAtKey(filtered, page);
      KeyedStart(page, first.pagination.nextKey, mid);
    }
    var second := Paginate(filtered, Some(next));
    var end := mid + |second.value.items|;
    assert second.Ok? && end <= |filtered| && second.value.items == filtered[mid..end] by {
      PageFromStart(filtered, Some(next), mid);
    }
    SliceConcat(filtered, start, mid, end);
    assert first.items + second.value.items == filtered[start..end];
  }

  /** A request carrying a numeric page key starts where the key says. */
  lemma KeyedStart(page: PageRequest, key: string, start: U64)
    requires ParseUint(key) == Some(start)
    ensures RequestedStart(Some(page.(key := key))) == Some(start)
  {
  }

  /** A page with a next key ends before the last match, and its next key
      parses to where it ended. */
  lemma FirstPageEndsAtKey<T>(filtered: seq<T>, page: PageRequest)
    requires |filtered| <= MAX_U64
    requires Paginate(filtered, Some(page)).Ok?
    requires Paginate(filtered, Some(page)).value.pagination.nextKey != ""
    ensures var first := Paginate(filtered, Some(page)).value;
      var start := RequestedStart(Some(page)).value;
      && start + |first.items| < |filtered|
      && first.items == filtered[start..start + |first.items|]
      && ParseUint(first.pagination.nextKey) == Some(start + |first.items|)
  {
    PaginateSlices(filtered, Some(page));
  }

  /** A request that starts inside the matches gives the slice from there. */
  lemma PageFromStart<T>(filtered: seq<T>, page: Option<PageRequest>, start: nat)
    requires RequestedStart(page) == Some(start) && start <= |filtered|
    ensures var p := Paginate(filtered, page);
      p.Ok? && start + |p.value.items| <= |filtered| && p.value.items == filtered[start..start + |p.value.items|]
  {
    PaginateSlices(filtered, page);
  }

  lemma SliceConcat<T>(s: seq<T>, a: nat, b: nat, c: nat)
    requires a <= b <= c <= |s|
    ensures s[a..b] + s[b..c] == s[a..c]
  {
  }
}
