/** Shared vocabulary of the ordering backend model: optional values, the
    HTTP error outcomes the routers raise, partial-update fields, the
    timestamp arithmetic of the `datetime` calls, and the generic query
    building blocks (WHERE, ORDER BY, OFFSET/LIMIT, LIKE '%..%'). */
module Common {

  datatype Option<T> = None | Some(value: T)

  /** The HTTP errors a handler can end with; `detail` is the message the
      source puts in the response body. `Unprocessable` is the 422 that the
      web framework answers when a request body or query parameter fails its
      declared constraints, before the handler runs. */
  datatype Error =
    | BadRequest(detail: string)     // 400
    | Unauthorized(detail: string)   // 401
    | Forbidden(detail: string)      // 403
    | NotFound(detail: string)       // 404
    | Unprocessable                  // 422

  datatype Result<T> = Ok(value: T) | Err(error: Error)

  /** One field of a partial update: left out of the request, or sent. */
  datatype Patch<T> = Unset | Set(value: T)

  /** The value a column holds after a partial update: the one sent, or the
      current one when the field was left out. */
  function Patched<T>(p: Patch<T>, current: T): (r: T)
    ensures p.Unset? ==> r == current
    ensures p.Set? ==> r == p.value
  {
    if p.Set? then p.value else current
  }

  function Min(a: int, b: int): int { if a <= b then a else b }
  function Max(a: int, b: int): int { if a >= b then a else b }

  // ---------------------------------------------------------------------
  // Time. Timestamps are integer microseconds since the epoch and calendar
  // days are integers (day d starts at d * MICROS_PER_DAY).

  const MICROS_PER_SECOND: int := 1_000_000
  const SECONDS_PER_DAY: int := 86_400
  const MICROS_PER_DAY: int := 86_400_000_000

  /** `datetime.combine(day, datetime.min.time())`: 00:00:00.000000. */
  function DayStart(day: int): int { day * MICROS_PER_DAY }

  /** `datetime.combine(day, datetime.max.time())`: 23:59:59.999999. */
  function DayEnd(day: int): int { DayStart(day) + MICROS_PER_DAY - 1 }

  /** `strptime(day).replace(hour=23, minute=59, second=59)`: 23:59:59.000000,
      which leaves out the last 999999 microseconds of the day. */
  function DayLastSecond(day: int): int { DayStart(day) + (SECONDS_PER_DAY - 1) * MICROS_PER_SECOND }

  /** How the day bounds sit: the 23:59:59 bound falls 999999 microseconds
      before the end of the day, and each day ends one microsecond before the
      next one starts. */
  lemma DayBounds(d: int)
    ensures DayStart(d) < DayLastSecond(d) < DayEnd(d)
    ensures DayEnd(d) - DayLastSecond(d) == MICROS_PER_SECOND - 1
    ensures DayEnd(d) + 1 == DayStart(d + 1)
  {
  }

  /** A `YYYY-MM-DD` query parameter: absent or empty (both falsy in the
      handlers' `if not value` tests), a date `strptime` accepts, or text it
      rejects with `ValueError`. */
  datatype DateParam = Omitted | On(day: int) | Malformed

  /** A string query parameter that is present and non-empty: the handlers'
      `if value:` tests skip both None and "". */
  predicate Given(s: Option<string>) { s.Some? && s.value != "" }

  // ---------------------------------------------------------------------
  // Query building blocks.

  /** `filter(p)`: the rows that satisfy `p`, in table order. */
  function Filter<T>(s: seq<T>, p: T -> bool): (r: seq<T>)
    ensures |r| <= |s|
    ensures forall i :: 0 <= i < |r| ==> p(r[i])
    ensures forall i :: 0 <= i < |r| ==> r[i] in s
    ensures forall i :: 0 <= i < |s| && p(s[i]) ==> s[i] in r
  {
    if s == [] then []
    else if p(s[0]) then [s[0]] + Filter(s[1..], p)
    else Filter(s[1..], p)
  }

  /** A filter keeps every matching row as many times as the table holds it,
      and no other row at all. */
  lemma {:induction false} FilterCount<T>(s: seq<T>, p: T -> bool, x: T)
    ensures multiset(Filter(s, p))[x] == if p(x) then multiset(s)[x] else 0
  {
    if s != [] {
      FilterCount(s[1..], p, x);
      assert s == [s[0]] + s[1..];
    }
  }

  /** A filter every row passes keeps the whole table. */
  lemma {:induction false} FilterAll<T>(s: seq<T>, p: T -> bool)
    requires forall i :: 0 <= i < |s| ==> p(s[i])
    ensures Filter(s, p) == s
  {
    if s != [] {
      FilterAll(s[1..], p);
    }
  }

  /** `.filter(p).first()`: the index of the first row satisfying `p`. */
  function IndexWhere<T>(s: seq<T>, p: T -> bool): (r: Option<nat>)
    ensures r.Some? ==> r.value < |s| && p(s[r.value])
    ensures r.Some? ==> forall j :: 0 <= j < r.value ==> !p(s[j])
    ensures r.None? <==> forall j :: 0 <= j < |s| ==> !p(s[j])
  {
    if s == [] then None
    else if p(s[0]) then Some(0)
    else match IndexWhere(s[1..], p)
      case None => None
      case Some(k) => Some(k + 1)
  }

  /** `offset = (page - 1) * per_page`. */
  function Offset(page: int, perPage: int): nat
    requires page >= 1 && perPage >= 1
  {
    (page - 1) * perPage
  }

  /** `.offset((page - 1) * per_page).limit(per_page)`. */
  function Page<T>(s: seq<T>, page: int, perPage: int): (r: seq<T>)
    requires page >= 1 && perPage >= 1
    ensures |r| <= perPage
    ensures Offset(page, perPage) >= |s| ==> r == []
    ensures Offset(page, perPage) < |s| ==> |r| == Min(perPage, |s| - Offset(page, perPage))
    ensures forall i :: 0 <= i < |r| ==> Offset(page, perPage) + i < |s| && r[i] == s[Offset(page, perPage) + i]
  {
    var off := Offset(page, perPage);
    if off >= |s| then [] else s[off .. off + Min(perPage, |s| - off)]
  }

  /** Paging loses nothing: the row at position k of the full result is row
      k % per_page of page k / per_page + 1. */
  lemma PageCovers<T>(s: seq<T>, perPage: int, k: nat)
    requires perPage >= 1 && k < |s|
    ensures var p := Page(s, k / perPage + 1, perPage);
            k % perPage < |p| && p[k % perPage] == s[k]
  {
    var page := k / perPage + 1;
    assert Offset(page, perPage) == (k / perPage) * perPage;
    assert (k / perPage) * perPage + k % perPage == k;
  }

  /** `column.contains(text)`, i.e. `LIKE '%text%'`, read as plain substring. */
  predicate ContainsText(hay: string, needle: string)
    decreases |hay|
  {
    needle <= hay || (|hay| > 0 && ContainsText(hay[1..], needle))
  }

  /** The needle occurs in the haystack starting at position `i`. */
  predicate OccursAt(hay: string, needle: string, i: int) {
    0 <= i && i + |needle| <= |hay| && hay[i..i + |needle|] == needle
  }

  /** `ContainsText` holds exactly when the needle occurs at some position
      of the haystack. */
  lemma {:induction false} ContainsTextAt(hay: string, needle: string)
    decreases |hay|
    ensures ContainsText(hay, needle) <==> exists i :: OccursAt(hay, needle, i)
  {
    var n := |needle|;
    if needle <= hay {
      assert hay[0..n] == needle;
      assert OccursAt(hay, needle, 0);
    } else if |hay| == 0 {
      assert needle != [];
    } else {
      var tail := hay[1..];
      ContainsTextAt(tail, needle);
      if exists i :: OccursAt(hay, needle, i) {
        var i :| OccursAt(hay, needle, i);
        assert tail[i - 1..i - 1 + n] == hay[i..i + n];
        assert OccursAt(tail, needle, i - 1);
      }
      if exists j :: OccursAt(tail, needle, j) {
        var j :| OccursAt(tail, needle, j);
        assert hay[j + 1..j + 1 + n] == tail[j..j + n];
        assert OccursAt(hay, needle, j + 1);
      }
    }
  }

  // ---------------------------------------------------------------------
  // ORDER BY key DESC. The tie order among equal keys is left unspecified by
  // SQL, so the contracts below pin only the order of the keys and the
  // multiset of rows.

  ghost predicate SortedDesc<T>(s: seq<T>, key: T -> int) {
    forall i, j :: 0 <= i < j < |s| ==> key(s[i]) >= key(s[j])
  }

  /** The sum of the key over all rows, e.g. SUM(total_sales). */
  function SumKey<T>(s: seq<T>, key: T -> int): int {
    if s == [] then 0 else key(s[0]) + SumKey(s[1..], key)
  }

  /** Adding a row at the end adds its key to the sum. */
  lemma {:induction false} SumKeyAppend<T>(s: seq<T>, x: T, key: T -> int)
    ensures SumKey(s + [x], key) == SumKey(s, key) + key(x)
  {
    if s == [] {
      assert [x][1..] == [];
    } else {
      assert (s + [x])[1..] == s[1..] + [x];
      SumKeyAppend(s[1..], x, key);
    }
  }

  /** A row no lower than the head of a sorted sequence may go in front. */
  lemma ConsSorted<T>(y: T, r: seq<T>, key: T -> int)
    requires SortedDesc(r, key)
    requires |r| > 0 ==> key(y) >= key(r[0])
    ensures SortedDesc([y] + r, key)
  {
    var t := [y] + r;
    forall i, j | 0 <= i < j < |t| ensures key(t[i]) >= key(t[j]) {
      if i == 0 {
        assert t[j] == r[j - 1];
      } else {
        assert t[i] == r[i - 1] && t[j] == r[j - 1];
      }
    }
  }

  /** The sum over a row put in front of a sequence. */
  lemma SumKeyCons<T>(y: T, r: seq<T>, key: T -> int)
    ensures SumKey([y] + r, key) == key(y) + SumKey(r, key)
  {
    assert ([y] + r)[1..] == r;
  }

  /** Putting the head back in front of the tail with `x` inserted keeps
      every promise of `InsertDesc` when `x` ranks below the head. */
  lemma InsertBelowHead<T>(x: T, s: seq<T>, rest: seq<T>, key: T -> int)
    requires |s| > 0 && SortedDesc(s, key) && key(x) < key(s[0])
    requires |rest| == |s| && SortedDesc(rest, key)
    requires rest[0] == x || (|s| > 1 && rest[0] == s[1])
    requires multiset(rest) == multiset(s[1..]) + multiset{x}
    requires SumKey(rest, key) == key(x) + SumKey(s[1..], key)
    ensures SortedDesc([s[0]] + rest, key)
    ensures multiset([s[0]] + rest) == multiset(s) + multiset{x}
    ensures SumKey([s[0]] + rest, key) == key(x) + SumKey(s, key)
  {
    assert s == [s[0]] + s[1..];
    assert key(s[0]) >= key(rest[0]) by {
      if rest[0] != x {
        assert rest[0] == s[1];
      }
    }
    ConsSorted(s[0], rest, key);
    SumKeyCons(s[0], rest, key);
  }

  function InsertDesc<T>(x: T, s: seq<T>, key: T -> int): (r: seq<T>)
    requires SortedDesc(s, key)
    ensures |r| == |s| + 1
    ensures r[0] == x || (|s| > 0 && r[0] == s[0])
    ensures SortedDesc(r, key)
    ensures multiset(r) == multiset(s) + multiset{x}
    ensures SumKey(r, key) == key(x) + SumKey(s, key)
  {
    if s == [] then [x]
    else if key(x) >= key(s[0]) then
      assert SortedDesc([x] + s, key) by { ConsSorted(x, s, key); }
      assert SumKey([x] + s, key) == key(x) + SumKey(s, key) by { SumKeyCons(x, s, key); }
      [x] + s
    else
      var rest := InsertDesc(x, s[1..], key);
      assert SortedDesc([s[0]] + rest, key) && SumKey([s[0]] + rest, key) == key(x) + SumKey(s, key) &&
             multiset([s[0]] + rest) == multiset(s) + multiset{x} by {
        InsertBelowHead(x, s, rest, key);
      }
      [s[0]] + rest
  }

  /** Sorting keeps exactly the rows it was given. */
  lemma SortDescSameRows<T>(s: seq<T>, key: T -> int)
    ensures forall x | x in SortDesc(s, key) :: x in s
    ensures forall x | x in s :: x in SortDesc(s, key)
  {
    var r := SortDesc(s, key);
    forall x | x in r ensures x in s {
      assert x in multiset(r);
    }
    forall x | x in s ensures x in r {
      assert x in multiset(s);
    }
  }

  /** In a sequence whose rows have pairwise distinct ids, no row occurs
      twice. */
  lemma {:induction false} DistinctIdsOnce<T>(s: seq<T>, id: T -> int, x: T)
    requires forall i, j :: 0 <= i < j < |s| ==> id(s[i]) != id(s[j])
    ensures multiset(s)[x] <= 1
  {
    if s != [] {
      assert s == [s[0]] + s[1..];
      DistinctIdsOnce(s[1..], id, x);
      if s[0] == x {
        assert x !in s[1..] by {
          forall j | 1 <= j < |s| ensures s[j] != x {
            assert id(s[0]) != id(s[j]);
          }
        }
      }
    }
  }

  /** A sequence in which no row occurs twice has no repeated row. */
  lemma {:induction false} OnceIsDistinct<T>(s: seq<T>)
    requires forall i :: 0 <= i < |s| ==> multiset(s)[s[i]] <= 1
    ensures forall i, j :: 0 <= i < j < |s| ==> s[i] != s[j]
  {
    if s != [] {
      var t := s[1..];
      assert s == [s[0]] + t;
      forall i | 0 <= i < |t| ensures multiset(t)[t[i]] <= 1 {
        assert t[i] == s[i + 1];
      }
      OnceIsDistinct(t);
      assert s[0] !in t by {
        assert multiset(s)[s[0]] == 1 + multiset(t)[s[0]];
      }
      forall i, j | 0 <= i < j < |s| ensures s[i] != s[j] {
        if i == 0 {
          assert s[j] == t[j - 1];
        } else {
          assert s[i] == t[i - 1] && s[j] == t[j - 1];
        }
      }
    }
  }

  /** Reordering rows with pairwise distinct ids keeps the ids distinct. */
  lemma PermutationKeepsDistinctIds<T>(a: seq<T>, b: seq<T>, id: T -> int)
    requires multiset(a) == multiset(b)
    requires forall i, j :: 0 <= i < j < |a| ==> id(a[i]) != id(a[j])
    ensures forall i, j :: 0 <= i < j < |b| ==> id(b[i]) != id(b[j])
  {
    forall i | 0 <= i < |b| ensures multiset(b)[b[i]] <= 1 {
      DistinctIdsOnce(a, id, b[i]);
    }
    OnceIsDistinct(b);
    forall i, j | 0 <= i < j < |b| ensures id(b[i]) != id(b[j]) {
      assert b[i] in multiset(a) && b[j] in multiset(a);
      var p :| 0 <= p < |a| && a[p] == b[i];
      var q :| 0 <= q < |a| && a[q] == b[j];
      assert p != q;
      if p < q {
        assert id(a[p]) != id(a[q]);
      } else {
        assert id(a[q]) != id(a[p]);
      }
    }
  }

  /** A page of the rows sorted by a key is itself sorted, and holds only
      rows of the unsorted input. */
  lemma SortedPage<T>(s: seq<T>, key: T -> int, page: int, perPage: int)
    requires page >= 1 && perPage >= 1
    ensures SortedDesc(Page(SortDesc(s, key), page, perPage), key)
    ensures forall x | x in Page(SortDesc(s, key), page, perPage) :: x in s
  {
    var sorted := SortDesc(s, key);
    var p := Page(sorted, page, perPage);
    forall x | x in p ensures x in s {
      var i :| 0 <= i < |p| && p[i] == x;
      assert sorted[Offset(page, perPage) + i] in multiset(s);
    }
  }

  /** Paging a sorted result: every row on a page ranks at least as high as
      every row on any later page. */
  lemma LaterPagesRankLower<T>(s: seq<T>, key: T -> int, page: int, later: int, perPage: int)
    requires SortedDesc(s, key)
    requires 1 <= page < later && perPage >= 1
    ensures var p, q := Page(s, page, perPage), Page(s, later, perPage);
      forall i, j :: 0 <= i < |p| && 0 <= j < |q| ==> key(p[i]) >= key(q[j])
  {
    var offP, offQ := Offset(page, perPage), Offset(later, perPage);
    assert offP + perPage <= offQ by {
      var gap := later - 1 - page;
      assert gap >= 0;
      assert offQ == offP + perPage + gap * perPage;
    }
  }

  /** Paging loses no row: every row is on some page. */
  lemma PagesCover<T>(s: seq<T>, perPage: int, x: T)
    requires perPage >= 1 && x in s
    ensures exists page :: page >= 1 && x in Page(s, page, perPage)
  {
    var k :| 0 <= k < |s| && s[k] == x;
    var page := k / perPage + 1;
    PageCovers(s, perPage, k);
    assert x in Page(s, page, perPage);
  }

  /** ORDER BY key DESC as an insertion sort. */
  function SortDesc<T>(s: seq<T>, key: T -> int): (r: seq<T>)
    ensures |r| == |s|
    ensures SortedDesc(r, key)
    ensures multiset(r) == multiset(s)
    ensures SumKey(r, key) == SumKey(s, key)
  {
    if s == [] then []
    else
      assert s == [s[0]] + s[1..];
      InsertDesc(s[0], SortDesc(s[1..], key), key)
  }
}
