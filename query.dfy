/**
 * The query vocabulary the repositories hand to the store: substring
 * matching (`contains`), ordering by a key (`orderBy`), the skip/take
 * window and the page arithmetic built on top of them.
 */
module Query {
  import opened Wrappers

  /**
   * The position of the first entry of `s` whose `key` is `k`, as a lookup
   * of one row by its primary key finds it.
   */
  function IndexOfKey<T, K(==)>(s: seq<T>, key: T -> K, k: K): (r: Option<nat>)
    ensures r.Some? ==> r.value < |s| && key(s[r.value]) == k
    ensures r.Some? ==> forall i :: 0 <= i < r.value ==> key(s[i]) != k
    ensures r.None? ==> forall i :: 0 <= i < |s| ==> key(s[i]) != k
  {
    if s == [] then None
    else if key(s[0]) == k then Some(0)
    else
      match IndexOfKey(s[1..], key, k)
      case None => None
      case Some(j) => Some(j + 1)
  }

  /** `p` is a prefix of `s`. */
  predicate IsPrefix(p: string, s: string) {
    |p| <= |s| && s[..|p|] == p
  }

  /**
   * The store's `contains` filter: `sub` occurs in `s` as a contiguous
   * piece. Characters are compared exactly; a database whose collation
   * ignores case would match more rows than this.
   */
  predicate Contains(s: string, sub: string)
    decreases |s|
  {
    IsPrefix(sub, s) || (|s| > 0 && Contains(s[1..], sub))
  }

  /** `sub` occurs in `s` starting at position `i`. */
  predicate OccursAt(s: string, sub: string, i: int) {
    0 <= i <= |s| - |sub| && s[i..i + |sub|] == sub
  }

  /** `Contains` finds exactly the positions where `sub` occurs. */
  lemma {:induction false} ContainsAt(s: string, sub: string)
    ensures Contains(s, sub) <==> exists i :: OccursAt(s, sub, i)
    decreases |s|
  {
    if IsPrefix(sub, s) {
      assert OccursAt(s, sub, 0);
    } else if |s| == 0 {
    } else {
      ContainsAt(s[1..], sub);
      if Contains(s[1..], sub) {
        var i :| OccursAt(s[1..], sub, i);
        assert s[i + 1..i + 1 + |sub|] == s[1..][i..i + |sub|];
        assert OccursAt(s, sub, i + 1);
      }
      if exists i :: OccursAt(s, sub, i) {
        var i :| OccursAt(s, sub, i);
        assert i != 0;
        assert s[1..][i - 1..i - 1 + |sub|] == s[i..i + |sub|];
        assert OccursAt(s[1..], sub, i - 1);
      }
    }
  }

  /** The default search term `''` filters nothing out. */
  lemma EmptySearchMatchesAll(s: string)
    ensures Contains(s, "")
  {
  }

  /** Every pair of entries of `s` is in ascending order of `key`. */
  ghost predicate SortedBy<T>(s: seq<T>, key: T -> int) {
    forall i, j :: 0 <= i < j < |s| ==> key(s[i]) <= key(s[j])
  }

  /** Places `x` before the first entry of `s` whose key is not smaller than its own. */
  function Insert<T>(x: T, s: seq<T>, key: T -> int): (r: seq<T>)
    ensures multiset(r) == multiset(s) + multiset{x}
    ensures SortedBy(s, key) ==> SortedBy(r, key)
  {
    if s == [] then [x]
    else if key(x) <= key(s[0]) then [x] + s
    else
      var rest := Insert(x, s[1..], key);
      assert s == [s[0]] + s[1..];
      InsertHeadSorted(x, s, rest, key);
      [s[0]] + rest
  }

  /** The step of `Insert` that keeps the head of `s` in front. */
  lemma InsertHeadSorted<T>(x: T, s: seq<T>, rest: seq<T>, key: T -> int)
    requires s != [] && key(s[0]) < key(x)
    requires multiset(rest) == multiset(s[1..]) + multiset{x}
    requires SortedBy(s[1..], key) ==> SortedBy(rest, key)
    ensures SortedBy(s, key) ==> SortedBy([s[0]] + rest, key)
  {
    if SortedBy(s, key) {
      var r := [s[0]] + rest;
      forall j | 0 <= j < |rest| ensures key(s[0]) <= key(rest[j]) {
        assert rest[j] in multiset(rest);
        if rest[j] != x {
          assert rest[j] in multiset(s[1..]);
          var k :| 0 <= k < |s[1..]| && s[1..][k] == rest[j];
          assert s[k + 1] == rest[j];
        }
      }
      forall i, j | 0 <= i < j < |r| ensures key(r[i]) <= key(r[j]) {
        if i == 0 {
          assert r[j] == rest[j - 1];
        } else {
          assert r[i] == rest[i - 1] && r[j] == rest[j - 1];
        }
      }
    }
  }

  /**
   * The store's `orderBy` on an integer key: the same entries, ascending by
   * `key`. The database leaves the order of entries with equal keys open;
   * this definition fixes one (insertion sort). Positions within a page
   * inherit that choice; size, membership and key order do not.
   */
  function SortBy<T>(s: seq<T>, key: T -> int): (r: seq<T>)
    ensures multiset(r) == multiset(s)
    ensures SortedBy(r, key)
  {
    if s == [] then []
    else
      assert s == [s[0]] + s[1..];
      Insert(s[0], SortBy(s[1..], key), key)
  }

  /** Sorting neither adds nor drops entries. */
  lemma SortByMembers<T>(s: seq<T>, key: T -> int)
    ensures |SortBy(s, key)| == |s|
    ensures forall x :: x in SortBy(s, key) <==> x in s
  {
    var r := SortBy(s, key);
    assert |r| == |multiset(r)| == |multiset(s)| == |s|;
    forall x ensures x in r <==> x in s {
      assert x in r <==> x in multiset(r);
      assert x in s <==> x in multiset(s);
    }
  }

  /** Removing the entry at `k` keeps every other entry, in order. */
  function RemoveAt<T>(s: seq<T>, k: nat): (r: seq<T>)
    requires k < |s|
    ensures |r| == |s| - 1
    ensures forall i :: 0 <= i < |r| ==> r[i] == s[if i < k then i else i + 1]
  {
    s[..k] + s[k + 1..]
  }

  function Min(a: int, b: int): int { if a <= b then a else b }

  function Max(a: int, b: int): int { if a <= b then b else a }

  /** The store's `skip`/`take`: the entries of `s` from position `skip` on, at most `take` of them. */
  function Window<T>(s: seq<T>, skip: nat, take: nat): (r: seq<T>)
    ensures |r| == Min(take, Max(0, |s| - skip))
    ensures forall i :: 0 <= i < |r| ==> r[i] == s[skip + i]
  {
    if skip >= |s| then [] else s[skip..Min(|s|, skip + take)]
  }

  /** A window of an ordered listing is itself ordered. */
  lemma WindowKeepsOrder<T>(s: seq<T>, key: T -> int, skip: nat, take: nat)
    requires SortedBy(s, key)
    ensures SortedBy(Window(s, skip, take), key)
    ensures forall x :: x in Window(s, skip, take) ==> x in s
  {
    var r := Window(s, skip, take);
    forall i, j | 0 <= i < j < |r| ensures key(r[i]) <= key(r[j]) {
      assert r[i] == s[skip + i] && r[j] == s[skip + j];
    }
  }

  /**
   * One page of a sorted listing: its size, entries drawn from the listing,
   * their order, and which entries of the listing they are.
   */
  lemma SortedPage<T>(s: seq<T>, key: T -> int, skip: nat, take: nat)
    ensures var p := Window(SortBy(s, key), skip, take);
            && |p| == Min(take, Max(0, |s| - skip))
            && (forall x :: x in p ==> x in s)
            && SortedBy(p, key)
            && (forall i :: 0 <= i < |p| ==> skip + i < |SortBy(s, key)| && p[i] == SortBy(s, key)[skip + i])
  {
    var sorted := SortBy(s, key);
    SortByMembers(s, key);
    WindowKeepsOrder(sorted, key, skip, take);
    forall x | x in Window(sorted, skip, take) ensures x in s {
      assert x in sorted;
    }
  }

  /** `a` added up `n` times. */
  function Times(a: int, n: nat): int {
    if n == 0 then 0 else Times(a, n - 1) + a
  }

  lemma {:induction false} TimesIsProduct(a: int, n: nat)
    ensures Times(a, n) == a * n
  {
    if n > 0 {
      TimesIsProduct(a, n - 1);
      assert a * n == a * (n - 1) + a;
    }
  }

  /**
   * `skip = (page - 1) * limit`, as every paged repository query computes
   * it. The product is written as repeated addition, which keeps
   * multiplication out of the proofs about pages; `SkipForIsProduct` states
   * that it is the product.
   */
  function SkipFor(page: int, limit: int): int {
    if limit >= 0 then Times(page - 1, limit) else -Times(page - 1, -limit)
  }

  lemma SkipForIsProduct(page: int, limit: int)
    ensures SkipFor(page, limit) == (page - 1) * limit
  {
    if limit >= 0 {
      TimesIsProduct(page - 1, limit);
    } else {
      TimesIsProduct(page - 1, -limit);
    }
  }

  /** The first page is never refused for a non-negative limit, and starts at the top of the listing. */
  lemma FirstPageAccepted(limit: nat)
    ensures PagingAccepted(1, limit) && SkipFor(1, limit) == 0
  {
    TimesIsProduct(0, limit);
  }

  /**
   * The paged queries this model accepts: the skip is not negative (the
   * store rejects a negative skip) and the take (`parseInt(limit)`) is not
   * negative. The store would read a negative take as counting back from
   * the end of the listing; the model refuses it instead.
   */
  predicate PagingAccepted(page: int, limit: int) {
    SkipFor(page, limit) >= 0 && limit >= 0
  }

  /** `Math.ceil(total / limit)`: the fewest pages of `limit` entries that hold `total` entries. */
  function TotalPages(total: nat, limit: nat): (r: nat)
    requires limit > 0
    ensures r * limit >= total
    ensures r > 0 ==> (r - 1) * limit < total
  {
    var q := (total + limit - 1) / limit;
    assert q * limit + (total + limit - 1) % limit == total + limit - 1;
    assert (q - 1) * limit == q * limit - limit;
    q
  }
}
