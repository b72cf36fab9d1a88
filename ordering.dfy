/** The order in which listings return documents, and cursor pagination over it.

    Posts are ordered by `pinned` descending, then `createdAt` descending. The
    source names only those two keys; ties are broken here by document id,
    descending, so that the order is total (a modelling choice). Users are
    ordered by `createdAt` descending with the same tie-break: their keys carry
    `pinned = false`, which leaves exactly that order. */
module Ordering {
  import opened Common
  import opened Strings

  /** A `limit` query parameter the handlers can use: absent, or the decimal
      digits of a positive number. */
  predicate ValidLimit(limit: Option<string>) {
    limit.Some? ==> IsDecimal(limit.value) && ParseDecimal(limit.value) > 0
  }

  /** `parseInt(limit, 10)` with the handler's default for an absent parameter. */
  function LimitOf(limit: Option<string>, default: nat): (n: nat)
    requires ValidLimit(limit)
    requires default > 0
    ensures n > 0
    ensures limit.None? ==> n == default
  {
    match limit
    case None => default
    case Some(s) => ParseDecimal(s)
  }

  /** Code-point order on strings: `a` sorts strictly before `b`. */
  predicate StrLess(a: string, b: string)
    decreases |a|
  {
    if a == [] then b != []
    else if b == [] then false
    else if a[0] != b[0] then a[0] < b[0]
    else StrLess(a[1..], b[1..])
  }

  lemma {:induction false} StrLessIrreflexive(a: string)
    ensures !StrLess(a, a)
    decreases |a|
  {
    if a != [] { StrLessIrreflexive(a[1..]); }
  }

  lemma {:induction false} StrLessAsymmetric(a: string, b: string)
    requires StrLess(a, b)
    ensures !StrLess(b, a)
    decreases |a|
  {
    if a != [] && b != [] && a[0] == b[0] { StrLessAsymmetric(a[1..], b[1..]); }
  }

  lemma {:induction false} StrLessTransitive(a: string, b: string, c: string)
    requires StrLess(a, b) && StrLess(b, c)
    ensures StrLess(a, c)
    decreases |a|
  {
    if a != [] && a[0] == b[0] && b[0] == c[0] {
      StrLessTransitive(a[1..], b[1..], c[1..]);
    }
  }

  lemma {:induction false} StrLessTotal(a: string, b: string)
    requires a != b
    ensures StrLess(a, b) || StrLess(b, a)
    decreases |a|
  {
    if a != [] && b != [] && a[0] == b[0] {
      assert a[1..] != b[1..] by {
        assert a == [a[0]] + a[1..] && b == [b[0]] + b[1..];
      }
      StrLessTotal(a[1..], b[1..]);
    }
  }

  /** What a listing sorts on: the pinned flag, the creation time and the document id. */
  datatype Key = Key(pinned: bool, createdAt: nat, id: string)

  /** `a` is listed before `b`: pinned first, then newer first, then larger id first. */
  predicate Before(a: Key, b: Key) {
    (a.pinned && !b.pinned)
    || (a.pinned == b.pinned && a.createdAt > b.createdAt)
    || (a.pinned == b.pinned && a.createdAt == b.createdAt && StrLess(b.id, a.id))
  }

  lemma BeforeIrreflexive(a: Key)
    ensures !Before(a, a)
  {
    StrLessIrreflexive(a.id);
  }

  lemma BeforeAsymmetric(a: Key, b: Key)
    requires Before(a, b)
    ensures !Before(b, a)
  {
    if a.pinned == b.pinned && a.createdAt == b.createdAt {
      StrLessAsymmetric(b.id, a.id);
    }
  }

  lemma BeforeTransitive(a: Key, b: Key, c: Key)
    requires Before(a, b) && Before(b, c)
    ensures Before(a, c)
  {
    if a.pinned == b.pinned == c.pinned && a.createdAt == b.createdAt == c.createdAt {
      StrLessTransitive(c.id, b.id, a.id);
    }
  }

  lemma BeforeTotal(a: Key, b: Key)
    requires a != b
    ensures Before(a, b) || Before(b, a)
  {
    if a.pinned == b.pinned && a.createdAt == b.createdAt {
      StrLessTotal(a.id, b.id);
    }
  }

  /** Strictly increasing in listing order (so also free of repeats). */
  predicate Sorted(s: seq<Key>) {
    forall i, j :: 0 <= i < j < |s| ==> Before(s[i], s[j])
  }

  /** `k` is the key of `ks` listed first. */
  predicate IsFirst(k: Key, ks: set<Key>) {
    k in ks && forall x :: x in ks && x != k ==> Before(k, x)
  }

  lemma {:induction false} FirstExists(ks: set<Key>)
    requires ks != {}
    ensures exists k :: IsFirst(k, ks)
    decreases |ks|
  {
    var y :| y in ks;
    var rest := ks - {y};
    if rest == {} {
      assert ks == {y};
      assert IsFirst(y, ks);
    } else {
      FirstExists(rest);
      var m :| IsFirst(m, rest);
      BeforeTotal(y, m);
      if Before(y, m) {
        forall x | x in ks && x != y ensures Before(y, x) {
          if x != m { BeforeTransitive(y, m, x); }
        }
        assert IsFirst(y, ks);
      } else {
        assert IsFirst(m, ks);
      }
    }
  }

  function First(ks: set<Key>): (k: Key)
    requires ks != {}
    ensures IsFirst(k, ks)
  {
    FirstExists(ks);
    assert forall a, b :: IsFirst(a, ks) && IsFirst(b, ks) ==> a == b by {
      forall a, b | IsFirst(a, ks) && IsFirst(b, ks) ensures a == b {
        if a != b { BeforeAsymmetric(a, b); }
      }
    }
    var k :| IsFirst(k, ks);
    k
  }

  /** The keys of `ks` in listing order: what an ordered query returns. */
  function Sort(ks: set<Key>): (s: seq<Key>)
    ensures Sorted(s)
    ensures |s| == |ks|
    ensures forall k :: k in s <==> k in ks
    decreases |ks|
  {
    if ks == {} then []
    else
      var k := First(ks);
      var rest := Sort(ks - {k});
      var r := [k] + rest;
      assert Sorted(r) by {
        forall i, j | 0 <= i < j < |r| ensures Before(r[i], r[j]) {
          assert r[j] == rest[j - 1];
          if i > 0 {
            assert r[i] == rest[i - 1];
          } else {
            assert r[j] in ks - {k};
          }
        }
      }
      r
  }

  /** `startAfter(cursor)`: the keys of `s` strictly after the cursor, all of `s` without one. */
  function After(cursor: Option<Key>, s: seq<Key>): seq<Key>
  {
    match cursor
    case None => s
    case Some(c) =>
      if s == [] then []
      else (if Before(c, s[0]) then [s[0]] else []) + After(cursor, s[1..])
  }

  /** `limit(n)`: the first `n` keys. */
  function Take<T>(n: nat, s: seq<T>): (r: seq<T>)
    ensures |r| <= n && r <= s
    ensures |r| < n ==> r == s
  {
    if n >= |s| then s else s[..n]
  }

  lemma {:induction false} AfterMembers(cursor: Option<Key>, s: seq<Key>)
    ensures forall k :: k in After(cursor, s) <==> k in s && (cursor.Some? ==> Before(cursor.value, k))
    decreases |s|
  {
    if cursor.Some? && s != [] {
      AfterMembers(cursor, s[1..]);
      assert s == [s[0]] + s[1..];
    }
  }

  /** With every key of `s` after the cursor, nothing is dropped. */
  lemma {:induction false} AfterKeepsLater(c: Key, s: seq<Key>)
    requires forall i :: 0 <= i < |s| ==> Before(c, s[i])
    ensures After(Some(c), s) == s
    decreases |s|
  {
    if s != [] {
      AfterKeepsLater(c, s[1..]);
    }
  }

  /** Resuming after the key at index `i` of a sorted sequence gives exactly
      the keys from index `i + 1` on. */
  lemma {:induction false} ResumeAfter(s: seq<Key>, i: nat)
    requires Sorted(s) && i < |s|
    ensures After(Some(s[i]), s) == s[i + 1..]
    decreases i
  {
    if i == 0 {
      BeforeIrreflexive(s[0]);
      AfterKeepsLater(s[0], s[1..]);
    } else {
      BeforeAsymmetric(s[0], s[i]);
      assert Sorted(s[1..]) by {
        forall a, b | 0 <= a < b < |s[1..]| ensures Before(s[1..][a], s[1..][b]) {
          assert s[1..][a] == s[a + 1] && s[1..][b] == s[b + 1];
        }
      }
      ResumeAfter(s[1..], i - 1);
      assert s[1..][i - 1] == s[i];
      assert s[1..][i..] == s[i + 1..];
    }
  }

  /** A cursor that is a key of the sorted sequence cuts it into the part up
      to the cursor and the part `After` returns, which starts at `j`. */
  lemma AfterIsSuffix(cursor: Option<Key>, s: seq<Key>) returns (j: nat)
    requires Sorted(s)
    requires cursor.Some? ==> cursor.value in s
    ensures j <= |s| && After(cursor, s) == s[j..]
  {
    if cursor.Some? {
      var i :| 0 <= i < |s| && s[i] == cursor.value;
      ResumeAfter(s, i);
      j := i + 1;
    } else {
      assert s[0..] == s;
      j := 0;
    }
  }

  /** After a full page, its last key is a key of `s`, and resuming after
      it continues exactly where the page ended. */
  lemma NextCursor(s: seq<Key>, limit: nat, cursor: Option<Key>)
    requires Sorted(s) && limit > 0
    requires cursor.Some? ==> cursor.value in s
    requires |Take(limit, After(cursor, s))| == limit
    ensures Take(limit, After(cursor, s))[limit - 1] in s
    ensures After(Some(Take(limit, After(cursor, s))[limit - 1]), s) == After(cursor, s)[limit..]
  {
    var j := AfterIsSuffix(cursor, s);
    SuffixIndexing(s, j, limit);
    ResumeAfter(s, j + limit - 1);
  }

  /** Index arithmetic on a full page taken from the suffix `s[j..]`. */
  lemma SuffixIndexing<T>(s: seq<T>, j: nat, limit: nat)
    requires 0 < limit && j <= |s| && |Take(limit, s[j..])| == limit
    ensures j + limit <= |s|
    ensures Take(limit, s[j..])[limit - 1] == s[j + limit - 1]
    ensures s[j..][limit..] == s[j + limit..]
  {
    assert Take(limit, s[j..]) == s[j..][..limit];
  }

  /** The pages a client receives when it starts from `cursor` and keeps
      passing the last key of each full page back as the next cursor, stopping
      at the first page shorter than `limit` (`hasMore` false). */
  function FollowPages(s: seq<Key>, limit: nat, cursor: Option<Key>): seq<seq<Key>>
    requires Sorted(s) && limit > 0
    requires cursor.Some? ==> cursor.value in s
    decreases |After(cursor, s)|
  {
    var page := Take(limit, After(cursor, s));
    if |page| < limit then [page]
    else
      NextCursor(s, limit, cursor);
      [page] + FollowPages(s, limit, Some(page[limit - 1]))
  }

  function Concat<T>(pages: seq<seq<T>>): seq<T> {
    if pages == [] then [] else pages[0] + Concat(pages[1..])
  }

  /** One step of `FollowPages`: a short page ends the chain, a full one is
      followed by the chain from its last key, which starts where it ended. */
  lemma FollowPagesStep(s: seq<Key>, limit: nat, cursor: Option<Key>)
    requires Sorted(s) && limit > 0
    requires cursor.Some? ==> cursor.value in s
    ensures var rest := After(cursor, s); var page := Take(limit, rest);
      (|page| < limit ==> page == rest && FollowPages(s, limit, cursor) == [page])
      && (|page| == limit ==>
            page[limit - 1] in s
            && page == rest[..limit]
            && After(Some(page[limit - 1]), s) == rest[limit..]
            && FollowPages(s, limit, cursor) == [page] + FollowPages(s, limit, Some(page[limit - 1])))
  {
    var page := Take(limit, After(cursor, s));
    if |page| == limit {
      NextCursor(s, limit, cursor);
    }
  }

  /** A chain that ends with a short page covers what follows the cursor. */
  lemma CoverShortPage(s: seq<Key>, limit: nat, cursor: Option<Key>)
    requires Sorted(s) && limit > 0
    requires cursor.Some? ==> cursor.value in s
    requires |Take(limit, After(cursor, s))| < limit
    ensures Concat(FollowPages(s, limit, cursor)) == After(cursor, s)
  {
    var page := Take(limit, After(cursor, s));
    FollowPagesStep(s, limit, cursor);
    ConcatCons(page, []);
    assert Concat<Key>([]) == [];
  }

  /** A full page followed by a chain that covers the rest covers all. */
  lemma CoverFullPage(s: seq<Key>, limit: nat, cursor: Option<Key>)
    requires Sorted(s) && limit > 0
    requires cursor.Some? ==> cursor.value in s
    requires |Take(limit, After(cursor, s))| == limit
    requires var next := Some(Take(limit, After(cursor, s))[limit - 1]);
      next.value in s && Concat(FollowPages(s, limit, next)) == After(next, s)
    ensures Concat(FollowPages(s, limit, cursor)) == After(cursor, s)
  {
    var rest := After(cursor, s);
    var page := Take(limit, rest);
    var next := Some(page[limit - 1]);
    FollowPagesStep(s, limit, cursor);
    ConcatCons(page, FollowPages(s, limit, next));
    assert rest == page + rest[limit..];
  }

  /** Cursor chaining covers the listing exactly: the pages, concatenated,
      are everything after the starting cursor, in order, with no key
      repeated or left out. */
  lemma {:induction false} FollowPagesCoverAll(s: seq<Key>, limit: nat, cursor: Option<Key>)
    requires Sorted(s) && limit > 0
    requires cursor.Some? ==> cursor.value in s
    ensures Concat(FollowPages(s, limit, cursor)) == After(cursor, s)
    decreases |After(cursor, s)|
  {
    var page := Take(limit, After(cursor, s));
    if |page| < limit {
      CoverShortPage(s, limit, cursor);
    } else {
      NextCursor(s, limit, cursor);
      var next := Some(page[limit - 1]);
      FollowPagesCoverAll(s, limit, next);
      CoverFullPage(s, limit, cursor);
    }
  }

  lemma ConcatCons<T>(p: seq<T>, tail: seq<seq<T>>)
    ensures Concat([p] + tail) == p + Concat(tail)
  {
    assert ([p] + tail)[0] == p;
    assert ([p] + tail)[1..] == tail;
  }

  /** Dropping the keys up to a cursor keeps a sorted sequence sorted. */
  lemma {:induction false} AfterSorted(cursor: Option<Key>, s: seq<Key>)
    requires Sorted(s)
    ensures Sorted(After(cursor, s))
    decreases |s|
  {
    if cursor.Some? && s != [] {
      var tail := s[1..];
      assert Sorted(tail) by {
        forall a, b | 0 <= a < b < |tail| ensures Before(tail[a], tail[b]) {
          assert tail[a] == s[a + 1] && tail[b] == s[b + 1];
        }
      }
      AfterSorted(cursor, tail);
      AfterMembers(cursor, tail);
      var rest := After(cursor, tail);
      forall k | k in rest ensures Before(s[0], k) {
        var j :| 0 <= j < |tail| && tail[j] == k;
        assert s[j + 1] == k;
      }
    }
  }

  /** A key of the sequence after the cursor that a page of `limit` keys
      leaves out lies after every key of that page, and the page is full. */
  lemma PageIsPrefix(cursor: Option<Key>, s: seq<Key>, limit: nat, k: Key)
    requires Sorted(s)
    requires k in s && (cursor.Some? ==> Before(cursor.value, k))
    requires k !in Take(limit, After(cursor, s))
    ensures |Take(limit, After(cursor, s))| == limit
    ensures forall i :: 0 <= i < limit ==> Before(Take(limit, After(cursor, s))[i], k)
  {
    var rest := After(cursor, s);
    AfterMembers(cursor, s);
    AfterSorted(cursor, s);
    var j :| 0 <= j < |rest| && rest[j] == k;
    assert j >= limit;
    forall i | 0 <= i < limit ensures Before(Take(limit, rest)[i], k) {
      assert Take(limit, rest)[i] == rest[i];
    }
  }

  /** A sorted listing puts every pinned key before every unpinned one. */
  lemma PinnedFirst(s: seq<Key>, i: nat, j: nat)
    requires Sorted(s) && i < j < |s|
    requires s[j].pinned
    ensures s[i].pinned
  {
    assert Before(s[i], s[j]);
  }

  /** `hasMore` is only a guess: a listing of exactly `limit` keys reports a
      full page, yet resuming after its last key finds nothing. */
  lemma FullLastPageHasNothingAfter(s: seq<Key>)
    requires Sorted(s) && |s| > 0
    ensures |Take(|s|, s)| == |s|
    ensures After(Some(s[|s| - 1]), s) == []
  {
    ResumeAfter(s, |s| - 1);
  }
}
