/** Pagination: the pager built from a request, the page read with it, and the page info sent back. */
module Paging {
  import opened Optional

  datatype Pager = Pager(limit: nat, offset: nat, orderBy: set<string>)

  datatype PagerError = UnknownOrderField | PageNotPositive | SizeNotPositive

  datatype PagerResult = Accepted(pager: Pager) | Rejected(error: PagerError)

  // ------------------------------------------------------------ the pager

  function Min(a: int, b: int): int {
    if a < b then a else b
  }

  function Capped(size: int, maxLimit: Option<int>): int {
    if maxLimit.Some? then Min(size, maxLimit.value) else size
  }

  /** A leading '-' asks for descending order. */
  function OrderColumn(field: string): string {
    if field != "" && field[0] == '-' then field[1..] else field
  }

  /** `i.split("-")[-1]` */
  function LastPart(s: string): string {
    if s == "" then ""
    else
      var rest := LastPart(s[1..]);
      if '-' in s[1..] then rest else if s[0] == '-' then s[1..] else s
  }

  function GetPager(page: int, size: int, maxLimit: Option<int>, orderBy: set<string>,
                    columns: set<string>, orderFields: set<string>): PagerResult
  {
    var capped := Capped(size, maxLimit);
    if exists f :: f in orderBy && OrderColumn(f) !in columns then Rejected(UnknownOrderField)
    else if page <= 0 then Rejected(PageNotPositive)
    else if capped <= 0 then Rejected(SizeNotPositive)
    else Accepted(Pager(capped, (page - 1) * capped, set f | f in orderBy && LastPart(f) in orderFields))
  }

  lemma {:induction false} LastPartMeaning(s: string)
    ensures '-' !in LastPart(s)
    ensures LastPart(s) == s <==> '-' !in s
  {
    if s != "" {
      LastPartMeaning(s[1..]);
      assert s == [s[0]] + s[1..];
    }
  }

  /** `tail` is what stands behind the last '-' of `s`, or all of `s` if there is none. */
  ghost predicate IsLastPart(s: string, tail: string) {
    '-' !in tail && (s == tail || exists p :: s == p + "-" + tail)
  }

  lemma {:induction false} LastPartIsLast(s: string)
    ensures IsLastPart(s, LastPart(s))
  {
    if s == "" {
    } else if '-' in s[1..] {
      LastPartIsLast(s[1..]);
      assert s == [s[0]] + s[1..];
      if s[1..] != LastPart(s[1..]) {
        var p :| s[1..] == p + "-" + LastPart(s[1..]);
        assert s == ([s[0]] + p) + "-" + LastPart(s);
      }
    } else if s[0] == '-' {
      assert s == "" + "-" + s[1..];
    } else {
      assert s == [s[0]] + s[1..];
    }
  }

  lemma EndsWithTail(s: string, tail: string)
    requires IsLastPart(s, tail)
    ensures |tail| <= |s| && s[|s| - |tail|..] == tail && (|tail| < |s| ==> s[|s| - |tail| - 1] == '-')
    ensures forall i :: |s| - |tail| <= i < |s| ==> s[i] != '-'
  {
  }

  lemma TailIsNotLonger(s: string, a: string, b: string)
    requires IsLastPart(s, a) && IsLastPart(s, b)
    ensures |b| <= |a|
  {
    EndsWithTail(s, a);
    EndsWithTail(s, b);
  }

  lemma LastPartIsUnique(s: string, tail: string)
    requires IsLastPart(s, tail)
    ensures LastPart(s) == tail
  {
    LastPartIsLast(s);
    TailIsNotLonger(s, tail, LastPart(s));
    TailIsNotLonger(s, LastPart(s), tail);
    EndsWithTail(s, tail);
    EndsWithTail(s, LastPart(s));
  }

  /** The filter finds the column behind the sign exactly when the column's name holds no '-'. */
  lemma OrderFilterFindsColumnIff(field: string)
    ensures LastPart(field) == OrderColumn(field) <==> '-' !in OrderColumn(field)
    ensures (forall orderFields: set<string> :: LastPart(field) in orderFields <==> OrderColumn(field) in orderFields) <==>
            '-' !in OrderColumn(field)
  {
    LastPartMeaning(field);
    if '-' !in OrderColumn(field) {
      LastPartMeaning(OrderColumn(field));
      if field != "" && field[0] == '-' {
        assert LastPart(field) == field[1..];
      }
    } else {
      var only := {LastPart(field)};
      assert LastPart(field) in only && OrderColumn(field) !in only;
    }
  }

  // --------------------------------------------------------------- the page

  /** The rows `offset(...).limit(...)` selects. */
  function Slice<T>(rows: seq<T>, offset: nat, limit: nat): seq<T> {
    if offset >= |rows| then []
    else if offset + limit >= |rows| then rows[offset..]
    else rows[offset..offset + limit]
  }

  type Row = map<string, string>

  predicate IsSubstring(needle: string, s: string) {
    needle <= s || (s != "" && IsSubstring(needle, s[1..]))
  }

  /** `field__icontains`; `fold` is the database's case folding. */
  predicate Contains(row: Row, field: string, needle: string, fold: string -> string) {
    field in row && IsSubstring(fold(needle), fold(row[field]))
  }

  /** The row passes the search: there is nothing to search for, nowhere to search, or some field holds it. */
  predicate Found(row: Row, search: string, fields: set<string>, fold: string -> string) {
    search == "" || fields == {} || exists f :: f in fields && Contains(row, f, search, fold)
  }

  function Matching(rows: seq<Row>, search: string, fields: set<string>, fold: string -> string): (r: seq<Row>)
    ensures forall x :: x in r <==> x in rows && Found(x, search, fields, fold)
  {
    if rows == [] then []
    else (if Found(rows[0], search, fields, fold) then [rows[0]] else []) + Matching(rows[1..], search, fields, fold)
  }

  /** The text occurs at some place. */
  lemma {:induction false} IsSubstringMeaning(needle: string, s: string)
    ensures IsSubstring(needle, s) <==> exists i :: 0 <= i <= |s| && needle <= s[i..]
  {
    assert s[0..] == s;
    if s != "" {
      IsSubstringMeaning(needle, s[1..]);
      if i :| 0 <= i <= |s[1..]| && needle <= s[1..][i..] {
        assert s[1..][i..] == s[i + 1..];
      }
      if i :| 0 < i <= |s| && needle <= s[i..] {
        assert s[i..] == s[1..][i - 1..];
      }
    }
  }

  /** A row is found if there is nothing to search for, nowhere to search, or the folded text occurs in some folded field. */
  lemma FoundMeaning(row: Row, search: string, fields: set<string>, fold: string -> string)
    ensures Found(row, search, fields, fold) <==>
              || search == "" || fields == {}
              || exists f, i :: f in fields && f in row && 0 <= i <= |fold(row[f])| && fold(search) <= fold(row[f])[i..]
  {
    if f :| f in fields && Contains(row, f, search, fold) {
      IsSubstringMeaning(fold(search), fold(row[f]));
    }
    if f, i :| f in fields && f in row && 0 <= i <= |fold(row[f])| && fold(search) <= fold(row[f])[i..] {
      IsSubstringMeaning(fold(search), fold(row[f]));
      assert Contains(row, f, search, fold);
    }
  }

  lemma MatchingCons(x: Row, rest: seq<Row>, search: string, fields: set<string>, fold: string -> string)
    ensures Matching([x] + rest, search, fields, fold) ==
            (if Found(x, search, fields, fold) then [x] else []) + Matching(rest, search, fields, fold)
  {
  }

  lemma ConcatAssoc(a: seq<Row>, b: seq<Row>, c: seq<Row>)
    ensures (a + b) + c == a + (b + c)
  {
  }

  /** The rows that match stand in the order of the table, each as often as there. */
  lemma {:induction false} MatchingKeepsOrder(a: seq<Row>, b: seq<Row>, search: string, fields: set<string>, fold: string -> string)
    ensures Matching(a + b, search, fields, fold) == Matching(a, search, fields, fold) + Matching(b, search, fields, fold)
  {
    if a == [] {
      assert a + b == b;
    } else {
      var x, rest := a[0], a[1..];
      assert a == [x] + rest && a + b == [x] + (rest + b);
      MatchingKeepsOrder(rest, b, search, fields, fold);
      MatchingCons(x, rest, search, fields, fold);
      MatchingCons(x, rest + b, search, fields, fold);
      ConcatAssoc(if Found(x, search, fields, fold) then [x] else [], Matching(rest, search, fields, fold), Matching(b, search, fields, fold));
    }
  }

  /** The rows some field of which holds the search text: the OR of the search terms. */
  function WithTerm(rows: seq<Row>, search: string, fields: set<string>, fold: string -> string): seq<Row> {
    if rows == [] then []
    else (if exists f :: f in fields && Contains(rows[0], f, search, fold) then [rows[0]] else [])
         + WithTerm(rows[1..], search, fields, fold)
  }

  lemma {:induction false} WithTermIsMatching(rows: seq<Row>, search: string, fields: set<string>, fold: string -> string)
    requires search != "" && fields != {}
    ensures WithTerm(rows, search, fields, fold) == Matching(rows, search, fields, fold)
  {
    if rows != [] { WithTermIsMatching(rows[1..], search, fields, fold); }
  }

  /** `get_all_obj` over the filtered rows in their order: one page, and the count of all that match. */
  method GetAllObj(rows: seq<Row>, pager: Pager, search: string, fields: set<string>, fold: string -> string)
    returns (data: seq<Row>, total: nat)
    ensures data == Slice(Matching(rows, search, fields, fold), pager.offset, pager.limit)
    ensures total == |Matching(rows, search, fields, fold)|
  {
    var queryset := rows;
    if search != "" && fields != {} {
      queryset := WithTerm(queryset, search, fields, fold);
      WithTermIsMatching(rows, search, fields, fold);
    } else {
      EverythingMatches(rows, search, fields, fold);
    }
    data := Slice(queryset, pager.offset, pager.limit);
    total := |queryset|;
  }

  lemma {:induction false} EverythingMatches(rows: seq<Row>, search: string, fields: set<string>, fold: string -> string)
    requires search == "" || fields == {}
    ensures Matching(rows, search, fields, fold) == rows
  {
    if rows != [] { EverythingMatches(rows[1..], search, fields, fold); }
  }

  // ------------------------------------------------------------ page info

  datatype PageInfo = PageInfo(totalPage: int, totalCount: nat, size: nat, page: nat)

  function Ceil(x: real): int {
    -(-x).Floor
  }

  /**
   What IEEE division guarantees of `x` as the quotient of two integers: a relative
   error of at most 2^-53, and no rounding past the next integer while that is exact.
   */
  ghost predicate IsQuotient(x: real, total: nat, limit: nat)
    requires limit > 0
  {
    var exact := total as real / limit as real;
    && (x - exact) * 0x20_0000_0000_0000 as real <= exact
    && (exact - x) * 0x20_0000_0000_0000 as real <= exact
    && (Ceil(exact) <= 0x20_0000_0000_0000 ==> x <= Ceil(exact) as real)
  }

  /** `generate_page_info`, given the quotient the division returned. */
  function GeneratePageInfo(quotient: real, totalCount: nat, pager: Pager): PageInfo
    requires pager.limit > 0
  {
    PageInfo(Ceil(quotient), totalCount, pager.limit, pager.offset / pager.limit + 1)
  }

  function PageCount(total: nat, limit: nat): nat
    requires limit > 0
  {
    (total + limit - 1) / limit
  }

  lemma ProductGrows(a: nat, b: nat, l: nat)
    requires a <= b
    ensures a * l <= b * l
  {
  }

  lemma ProductCancels(a: nat, b: nat, l: nat)
    requires l > 0 && a * l < b * l
    ensures a < b
  {
  }

  lemma PageCountBounds(total: nat, limit: nat)
    requires limit > 0
    ensures PageCount(total, limit) * limit < total + limit
    ensures total <= PageCount(total, limit) * limit
    ensures PageCount(total, limit) <= total
  {
    var n := total + limit - 1;
    var c := n / limit;
    assert n == c * limit + n % limit;
    ProductGrows(1, limit, total);
    assert (total + 1) * limit == total * limit + limit;
    assert c * limit < (total + 1) * limit;
    ProductCancels(c, total + 1, limit);
  }

  /** The exact quotient lies in (c - 1, c], by at least 1/limit above c - 1. */
  lemma ExactQuotient(total: nat, limit: nat, c: nat)
    requires limit > 0 && total <= c * limit < total + limit
    ensures var exact := total as real / limit as real;
            exact <= c as real && (exact - (c as real - 1.0)) * limit as real >= 1.0
  {
  }

  /** Rounding cannot take away the gap above c - 1: it is at least 1/limit, and the error below that. */
  lemma RoundingStaysAbove(x: real, exact: real, l: real, k: real, t: real)
    requires l > 0.0 && exact * l == t && 0.0 <= t < 0x20_0000_0000_0000 as real
    requires (exact - x) * 0x20_0000_0000_0000 as real <= exact
    requires (exact - k) * l >= 1.0
    ensures x > k
  {
  }

  /** Below 2^53 the rounded division has the exact ceiling. */
  lemma CeilOfQuotient(x: real, total: nat, limit: nat)
    requires limit > 0 && total < 0x20_0000_0000_0000 && IsQuotient(x, total, limit)
    ensures Ceil(x) == PageCount(total, limit)
  {
    var c := PageCount(total, limit);
    var exact := total as real / limit as real;
    PageCountBounds(total, limit);
    ExactQuotient(total, limit, c);
    RoundingStaysAbove(exact, exact, limit as real, c as real - 1.0, total as real);
    assert Ceil(exact) == c;
    RoundingStaysAbove(x, exact, limit as real, c as real - 1.0, total as real);
  }

  // ---------------------------------------------------------- pages tile

  /** Pages 1 to `count`, one after the other. */
  function Pages<T>(rows: seq<T>, limit: nat, count: nat): seq<T> {
    if count == 0 then [] else Pages(rows, limit, count - 1) + Slice(rows, (count - 1) * limit, limit)
  }

  lemma {:induction false} PagesArePrefix<T>(rows: seq<T>, limit: nat, count: nat)
    requires limit > 0
    ensures Pages(rows, limit, count) == if count * limit < |rows| then rows[..count * limit] else rows
  {
    if count > 0 {
      PagesArePrefix(rows, limit, count - 1);
      NextPage(rows, limit, count, (count - 1) * limit, count * limit);
    } else {
      assert 0 * limit == 0;
    }
  }

  lemma NextPage<T>(rows: seq<T>, limit: nat, count: nat, start: nat, end: nat)
    requires limit > 0 && count > 0 && start == (count - 1) * limit && end == count * limit
    requires Pages(rows, limit, count - 1) == if start < |rows| then rows[..start] else rows
    ensures Pages(rows, limit, count) == if end < |rows| then rows[..end] else rows
  {
  }

  /** All the pages together are the matching rows, each once and in order. */
  lemma PagesTileRows<T>(rows: seq<T>, limit: nat)
    requires limit > 0
    ensures Pages(rows, limit, PageCount(|rows|, limit)) == rows
  {
    PageCountBounds(|rows|, limit);
    PagesArePrefix(rows, limit, PageCount(|rows|, limit));
  }

  lemma SliceSize<T>(rows: seq<T>, start: nat, limit: nat)
    ensures start + limit <= |rows| ==> |Slice(rows, start, limit)| == limit
    ensures start < |rows| <= start + limit ==> |Slice(rows, start, limit)| == |rows| - start
    ensures |rows| <= start ==> Slice(rows, start, limit) == []
  {
  }

  /** Every page but the last is full, the last is not empty, and there is nothing beyond it. */
  lemma OnlyLastPageIsShort<T>(rows: seq<T>, limit: nat, page: nat)
    requires limit > 0 && page > 0
    ensures page < PageCount(|rows|, limit) ==> |Slice(rows, (page - 1) * limit, limit)| == limit
    ensures page == PageCount(|rows|, limit) ==> 0 < |Slice(rows, (page - 1) * limit, limit)| <= limit
    ensures page > PageCount(|rows|, limit) ==> Slice(rows, (page - 1) * limit, limit) == []
  {
    PageStart(|rows|, limit, page);
    SliceSize(rows, (page - 1) * limit, limit);
  }

  lemma PageStart(total: nat, limit: nat, page: nat)
    requires limit > 0 && page > 0
    ensures var start, c := (page - 1) * limit, PageCount(total, limit);
            && (page < c ==> start + limit < total)
            && (page == c ==> start < total <= start + limit)
            && (page > c ==> total <= start)
  {
    var c := PageCount(total, limit);
    PageCountBounds(total, limit);
    assert page * limit == (page - 1) * limit + limit;
    if page < c {
      ProductGrows(page + 1, c, limit);
      assert (page + 1) * limit == page * limit + limit;
    } else if page > c {
      ProductGrows(c, page - 1, limit);
    }
  }

  // ------------------------------------------------------ a client's view

  /** What a client keeps fixed while it walks through the pages, and what the endpoint allows. */
  datatype Listing = Listing(size: int, maxLimit: Option<int>, orderBy: set<string>, columns: set<string>, orderFields: set<string>)
  {
    function PagerOf(page: int): PagerResult {
      GetPager(page, size, maxLimit, orderBy, columns, orderFields)
    }

    /** The size is positive before and after the cap, and every order column exists. */
    ghost predicate Acceptable() {
      size > 0 && (maxLimit.Some? ==> maxLimit.value > 0) && forall f :: f in orderBy ==> OrderColumn(f) in columns
    }
  }

  /** The field, without a leading '-', names no column. */
  ghost predicate NamesNoColumn(field: string, columns: set<string>) {
    if field != "" && field[0] == '-' then field[1..] !in columns else field !in columns
  }

  /**
   What a pager holds: a limit no larger than the size or the cap and equal to one of
   them, the offset of the page, and exactly the requested order fields whose last part
   is allowed. An unknown order column refuses the request first, then the page, then the
   size.
   */
  lemma PagerMeaning(listing: Listing, page: int)
    ensures var r := listing.PagerOf(page);
            var unknown := exists f :: f in listing.orderBy && NamesNoColumn(f, listing.columns);
            var empty := listing.size <= 0 || (listing.maxLimit.Some? && listing.maxLimit.value <= 0);
            && (r == Rejected(UnknownOrderField) <==> unknown)
            && (r == Rejected(PageNotPositive) <==> !unknown && page <= 0)
            && (r == Rejected(SizeNotPositive) <==> !unknown && page > 0 && empty)
    ensures var r := listing.PagerOf(page);
            r.Accepted? ==>
              && 0 < r.pager.limit <= listing.size && (listing.maxLimit.Some? ==> r.pager.limit <= listing.maxLimit.value)
              && (r.pager.limit == listing.size || listing.maxLimit == Some(r.pager.limit))
              && r.pager.offset == (page - 1) * r.pager.limit
              && forall f :: f in r.pager.orderBy <==>
                   f in listing.orderBy && exists tail :: IsLastPart(f, tail) && tail in listing.orderFields
  {
    var r := listing.PagerOf(page);
    assert forall f :: OrderColumn(f) !in listing.columns <==> NamesNoColumn(f, listing.columns);
    if r.Accepted? {
      forall f ensures LastPart(f) in listing.orderFields <==> exists tail :: IsLastPart(f, tail) && tail in listing.orderFields {
        LastPartIsLast(f);
        if tail :| IsLastPart(f, tail) && tail in listing.orderFields {
          LastPartIsUnique(f, tail);
        }
      }
    }
  }

  /** The answers to requests for pages 1 to `count`, one after the other; none if one is refused. */
  function Fetched<T>(rows: seq<T>, listing: Listing, count: nat): Option<seq<T>> {
    if count == 0 then Some([])
    else
      var before := Fetched(rows, listing, count - 1);
      match listing.PagerOf(count)
      case Rejected(_) => None
      case Accepted(pager) => if before.None? then None else Some(before.value + Slice(rows, pager.offset, pager.limit))
  }

  lemma {:induction false} FetchedIsPages<T>(rows: seq<T>, listing: Listing, count: nat)
    requires listing.Acceptable()
    ensures Fetched(rows, listing, count) == Some(Pages(rows, Capped(listing.size, listing.maxLimit), count))
  {
    if count > 0 {
      FetchedIsPages(rows, listing, count - 1);
    }
  }

  /** Requesting every page that the page info announces yields all the rows, each once and in order; only positive pages are served. */
  lemma RequestedPagesTileRows<T>(rows: seq<T>, listing: Listing)
    requires listing.Acceptable()
    ensures Fetched(rows, listing, PageCount(|rows|, Capped(listing.size, listing.maxLimit))) == Some(rows)
    ensures forall page :: listing.PagerOf(page).Accepted? <==> page > 0
  {
    var limit := Capped(listing.size, listing.maxLimit);
    FetchedIsPages(rows, listing, PageCount(|rows|, limit));
    PagesTileRows(rows, limit);
  }

  /** The page info names the requested page, the capped size, and the exact number of pages. */
  lemma PageInfoAnswersRequest(page: int, size: int, maxLimit: Option<int>, orderBy: set<string>, columns: set<string>,
                               orderFields: set<string>, total: nat, quotient: real)
    requires GetPager(page, size, maxLimit, orderBy, columns, orderFields).Accepted?
    requires total < 0x20_0000_0000_0000
    requires var pager := GetPager(page, size, maxLimit, orderBy, columns, orderFields).pager;
             pager.limit > 0 && IsQuotient(quotient, total, pager.limit)
    ensures var pager := GetPager(page, size, maxLimit, orderBy, columns, orderFields).pager;
            GeneratePageInfo(quotient, total, pager) == PageInfo(PageCount(total, pager.limit), total, Capped(size, maxLimit), page)
  {
    var pager := GetPager(page, size, maxLimit, orderBy, columns, orderFields).pager;
    CeilOfQuotient(quotient, total, pager.limit);
    PageOfOffset(page, pager.limit);
  }

  lemma PageOfOffset(page: int, limit: nat)
    requires page > 0 && limit > 0
    ensures (page - 1) * limit / limit + 1 == page
  {
    var n := (page - 1) * limit;
    var q := n / limit;
    assert n == q * limit + n % limit;
    assert (q + 1) * limit == q * limit + limit;
    ProductCancels(page - 1, q + 1, limit);
    assert page * limit == n + limit;
    ProductCancels(q, page, limit);
  }
}
