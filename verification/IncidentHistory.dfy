/** Keyset pagination of the incident history. The zero time as a cursor means "from the newest row". */
module IncidentHistory {
  import opened Wrap
  import opened Incidents
  import Recency
  import Text

  /** The listing order: later update first, then greater identifier first. */
  predicate Newer(a: Incident, b: Incident) {
    Recency.Newer(StampOf(a), StampOf(b))
  }

  function StampOf(i: Incident): Recency.Stamp {
    Recency.Stamp(i.updatedAt, i.id)
  }

  ghost predicate Descending(s: seq<Incident>) {
    forall i, j :: 0 <= i < j < |s| ==> Newer(s[i], s[j])
  }

  ghost predicate RowsNamed(rows: Rows) {
    forall id :: id in rows ==> rows[id].id == id
  }

  function EffectiveLimit(limit: int): nat {
    if limit <= 0 || limit > 1000 then 200 else limit
  }

  predicate Matches(row: Incident, status: Option<Status>) {
    status.None? || row.status == status.value
  }

  /** Strictly below the cursor, or no cursor. */
  predicate BelowCursor(row: Incident, before: int, beforeId: string) {
    before == Recency.ZERO_TIME || !(row.updatedAt > before || (row.updatedAt == before && !Text.Less(row.id, beforeId)))
  }

  /** The strictly descending list of exactly the selected rows below a cursor. */
  ghost predicate IsListing(rows: Rows, before: int, beforeId: string, status: Option<Status>, s: seq<Incident>) {
    && Descending(s)
    && (forall r :: r in s ==> r.id in rows && rows[r.id] == r && Matches(r, status) && BelowCursor(r, before, beforeId))
    && (forall id :: id in rows && Matches(rows[id], status) && BelowCursor(rows[id], before, beforeId) ==> rows[id] in s)
  }

  ghost predicate IsPage(rows: Rows, limit: int, before: int, beforeId: string, status: Option<Status>, page: seq<Incident>) {
    exists full :: IsListing(rows, before, beforeId, status, full)
                   && page == if |full| > EffectiveLimit(limit) then full[..EffectiveLimit(limit)] else full
  }

  /** Insert into a descending list. */
  method InsertNewestFirst(sorted: seq<Incident>, row: Incident) returns (r: seq<Incident>)
    requires Descending(sorted)
    requires forall x :: x in sorted ==> x.id != row.id
    ensures Descending(r)
    ensures forall x :: x in r <==> x in sorted || x == row
  {
    var n := 0;
    while n < |sorted| && Newer(sorted[n], row)
      invariant 0 <= n <= |sorted|
      invariant forall i :: 0 <= i < n ==> Newer(sorted[i], row)
    {
      n := n + 1;
    }
    r := sorted[..n] + [row] + sorted[n..];
    assert forall x :: x in sorted <==> x in sorted[..n] || x in sorted[n..];
    forall j | n <= j < |sorted|
      ensures Newer(row, sorted[j])
    {
      Recency.NewerTotal(StampOf(sorted[n]), StampOf(row));
      if n < j {
        Recency.NewerTransitive(StampOf(row), StampOf(sorted[n]), StampOf(sorted[j]));
      }
    }
  }

  /** The selection loop, the sort and the cut. */
  method ListIncidentHistory(rows: Rows, limit: int, before: int, beforeId: string, status: Option<Status>)
    returns (page: seq<Incident>)
    requires RowsNamed(rows)
    ensures IsPage(rows, limit, before, beforeId, status, page)
  {
    var out: seq<Incident> := [];
    var todo := rows.Keys;
    while todo != {}
      invariant todo <= rows.Keys
      invariant Descending(out)
      invariant forall r :: r in out ==> r.id in rows && r.id !in todo && rows[r.id] == r
                                         && Matches(r, status) && BelowCursor(r, before, beforeId)
      invariant forall id :: id in rows.Keys - todo && Matches(rows[id], status) && BelowCursor(rows[id], before, beforeId)
                             ==> rows[id] in out
      decreases todo
    {
      var id :| id in todo;
      todo := todo - {id};
      if !Matches(rows[id], status) {
        continue;
      }
      if !BelowCursor(rows[id], before, beforeId) {
        continue;
      }
      out := InsertNewestFirst(out, rows[id]);
    }
    assert IsListing(rows, before, beforeId, status, out);
    page := out;
    if |out| > EffectiveLimit(limit) {
      page := out[..EffectiveLimit(limit)];
    }
  }

  function Concat(pages: seq<seq<Incident>>): seq<Incident> {
    if pages == [] then [] else Concat(pages[..|pages| - 1]) + pages[|pages| - 1]
  }

  function Last(page: seq<Incident>): Incident
    requires page != []
  {
    page[|page| - 1]
  }

  /** The page asked for with the last row of what was read before it, or with no cursor. */
  ghost predicate Follows(rows: Rows, limit: int, status: Option<Status>, read: seq<Incident>, page: seq<Incident>) {
    if read == [] then IsPage(rows, limit, Recency.ZERO_TIME, "", status, page)
    else IsPage(rows, limit, Last(read).updatedAt, Last(read).id, status, page)
  }

  /** A client's walk: the first page has no cursor, each later page is asked for with the last
      row of the page before it, and only the final page may be empty. */
  ghost predicate IsWalk(rows: Rows, limit: int, status: Option<Status>, pages: seq<seq<Incident>>) {
    if pages == [] then true
    else if |pages| == 1 then Follows(rows, limit, status, [], pages[0])
    else
      && IsWalk(rows, limit, status, pages[..|pages| - 1])
      && pages[|pages| - 2] != []
      && Follows(rows, limit, status, pages[|pages| - 2], pages[|pages| - 1])
  }

  ghost predicate Below(read: seq<Incident>, row: Incident) {
    read == [] || Newer(Last(read), row)
  }

  /** What has been read so far: the descending list of the matching rows down to the last one read. */
  ghost predicate ReadDownTo(rows: Rows, status: Option<Status>, read: seq<Incident>) {
    && Descending(read)
    && (forall r :: r in read ==> r.id in rows && rows[r.id] == r && Matches(r, status))
    && (forall id :: id in rows && Matches(rows[id], status) && rows[id] !in read ==> Below(read, rows[id]))
  }

  /** A page, told through the order instead of the cursor. */
  ghost predicate NextRows(rows: Rows, limit: nat, status: Option<Status>, read: seq<Incident>,
                           full: seq<Incident>, page: seq<Incident>) {
    && Descending(full)
    && (forall r :: r in full ==> r.id in rows && rows[r.id] == r && Matches(r, status) && Below(read, r))
    && (forall id :: id in rows && Matches(rows[id], status) && Below(read, rows[id]) ==> rows[id] in full)
    && |page| <= |full| && page == full[..|page|] && (|page| == |full| || |page| == limit)
  }

  lemma PageIsNextRows(rows: Rows, limit: int, status: Option<Status>, read: seq<Incident>, page: seq<Incident>)
    returns (full: seq<Incident>)
    requires read != [] ==> Last(read).updatedAt != Recency.ZERO_TIME
    requires Follows(rows, limit, status, read, page)
    ensures NextRows(rows, EffectiveLimit(limit), status, read, full, page)
  {
    var at, id := if read == [] then Recency.ZERO_TIME else Last(read).updatedAt, if read == [] then "" else Last(read).id;
    full :| IsListing(rows, at, id, status, full)
            && page == if |full| > EffectiveLimit(limit) then full[..EffectiveLimit(limit)] else full;
    assert forall row :: BelowCursor(row, at, id) <==> Below(read, row);
  }

  lemma AppendDescends(read: seq<Incident>, page: seq<Incident>)
    requires Descending(read) && Descending(page) && forall r :: r in page ==> Below(read, r)
    ensures Descending(read + page)
  {
    var all := read + page;
    forall i, j | 0 <= i < j < |all|
      ensures Newer(all[i], all[j])
    {
      if i < |read| <= j {
        assert all[j] == page[j - |read|] && Below(read, all[j]);
        if i < |read| - 1 {
          Recency.NewerTransitive(StampOf(all[i]), StampOf(Last(read)), StampOf(all[j]));
        }
      }
    }
  }

  lemma PageExtends(rows: Rows, limit: nat, status: Option<Status>, read: seq<Incident>, full: seq<Incident>, page: seq<Incident>)
    requires limit > 0 && ReadDownTo(rows, status, read) && NextRows(rows, limit, status, read, full, page)
    ensures ReadDownTo(rows, status, read + page)
    ensures |page| < limit ==> forall id :: id in rows && Matches(rows[id], status) ==> rows[id] in read + page
  {
    assert forall r :: r in page ==> r in full;
    AppendDescends(read, page);
    forall id | id in rows && Matches(rows[id], status) && rows[id] !in read + page
      ensures |page| == limit && Below(read + page, rows[id])
    {
      assert rows[id] !in read && rows[id] !in page;
      var k :| 0 <= k < |full| && full[k] == rows[id];
      assert k >= |page|;
      assert Last(read + page) == full[|page| - 1];
    }
  }

  lemma PageReadsDown(rows: Rows, limit: int, status: Option<Status>, read: seq<Incident>, page: seq<Incident>)
    requires forall id :: id in rows ==> rows[id].updatedAt != Recency.ZERO_TIME
    requires ReadDownTo(rows, status, read) && Follows(rows, limit, status, read, page)
    ensures ReadDownTo(rows, status, read + page)
    ensures |page| < EffectiveLimit(limit) ==> Exhausted(rows, status, read + page)
  {
    if read != [] {
      assert Last(read) in read;
    }
    var full := PageIsNextRows(rows, limit, status, read, page);
    PageExtends(rows, EffectiveLimit(limit), status, read, full, page);
  }

  ghost predicate Exhausted(rows: Rows, status: Option<Status>, read: seq<Incident>) {
    forall id :: id in rows && Matches(rows[id], status) ==> rows[id] in read
  }

  /** What is known after n pages, the last of which is this one. */
  ghost predicate ReadAfter(rows: Rows, limit: int, status: Option<Status>, read: seq<Incident>, page: seq<Incident>, n: nat) {
    && ReadDownTo(rows, status, read)
    && (page != [] ==> read != [] && Last(read) == Last(page))
    && |read| >= (if page != [] then n else n - 1)
    && (|page| < EffectiveLimit(limit) ==> Exhausted(rows, status, read))
  }

  lemma PageReadAfter(rows: Rows, limit: int, status: Option<Status>, read: seq<Incident>, page: seq<Incident>, n: nat)
    requires forall id :: id in rows ==> rows[id].updatedAt != Recency.ZERO_TIME
    requires ReadDownTo(rows, status, read) && Follows(rows, limit, status, read, page) && |read| >= n
    ensures ReadAfter(rows, limit, status, read + page, page, n + 1)
  {
    PageReadsDown(rows, limit, status, read, page);
    var all := read + page;
    assert |all| == |read| + |page|;
    assert page != [] ==> Last(all) == Last(page);
  }

  lemma NothingRead(rows: Rows, status: Option<Status>)
    ensures ReadDownTo(rows, status, [])
  {
  }

  /** On a store with non-zero update times a walk reads down the listing: what it has read so far
      is always an upper part of it, and a short page ends it. */
  lemma {:induction false} WalkReadsDown(rows: Rows, limit: int, status: Option<Status>, pages: seq<seq<Incident>>)
    requires forall id :: id in rows ==> rows[id].updatedAt != Recency.ZERO_TIME
    requires IsWalk(rows, limit, status, pages) && pages != []
    ensures ReadAfter(rows, limit, status, Concat(pages), pages[|pages| - 1], |pages|)
  {
    var init, page := pages[..|pages| - 1], pages[|pages| - 1];
    if init == [] {
      NothingRead(rows, status);
      PageReadAfter(rows, limit, status, [], page, 0);
    } else {
      WalkReadsDown(rows, limit, status, init);
      assert init[|init| - 1] == pages[|pages| - 2];
      PageReadAfter(rows, limit, status, Concat(init), page, |init|);
    }
  }

  lemma {:induction false} DescendingFits(rows: Rows, s: seq<Incident>)
    requires Descending(s) && forall r :: r in s ==> r.id in rows && rows[r.id] == r
    ensures |s| <= |rows|
  {
    if s != [] {
      var init, last := s[..|s| - 1], s[|s| - 1];
      forall i | 0 <= i < |init|
        ensures init[i].id != last.id
      {
        assert s[i] in s && last in s && Newer(s[i], last);
        Recency.NewerTotal(StampOf(last), StampOf(last));
      }
      DescendingFits(rows - {last.id}, init);
      assert |rows - {last.id}| == |rows| - 1 by {
        assert (rows - {last.id}).Keys == rows.Keys - {last.id};
      }
    }
  }

  /** A finished walk returns the whole filtered history, each incident exactly once, in strictly
      descending order; and no walk asks for more than one page beyond the number of rows. */
  lemma WalkIsComplete(rows: Rows, limit: int, status: Option<Status>, pages: seq<seq<Incident>>)
    requires forall id :: id in rows ==> rows[id].updatedAt != Recency.ZERO_TIME
    requires IsWalk(rows, limit, status, pages) && pages != []
    ensures |pages| <= |rows| + 1
    ensures |pages[|pages| - 1]| < EffectiveLimit(limit) ==> IsListing(rows, Recency.ZERO_TIME, "", status, Concat(pages))
  {
    WalkReadsDown(rows, limit, status, pages);
    DescendingFits(rows, Concat(pages));
  }

  /** The listing is unique, so the walk's result depends on neither the limit nor the page cuts. */
  lemma {:induction false} ListingUnique(rows: Rows, before: int, beforeId: string, status: Option<Status>,
                                         s: seq<Incident>, t: seq<Incident>)
    requires IsListing(rows, before, beforeId, status, s) && IsListing(rows, before, beforeId, status, t)
    ensures s == t
  {
    SameElements(s, t);
  }

  lemma {:induction false} SameElements(s: seq<Incident>, t: seq<Incident>)
    requires Descending(s) && Descending(t) && forall r :: r in s <==> r in t
    ensures s == t
  {
    assert t != [] ==> t[0] in t;
    if s != [] {
      assert s[0] in s && s[0] in t;
      assert t[0] in s;
      var i :| 0 <= i < |t| && t[i] == s[0];
      var j :| 0 <= j < |s| && s[j] == t[0];
      Recency.NewerTotal(StampOf(s[0]), StampOf(t[0]));
      assert s[0] == t[0];
      forall r
        ensures r in s[1..] <==> r in t[1..]
      {
        Recency.NewerTotal(StampOf(s[0]), StampOf(s[0]));
        assert r in s[1..] ==> r in t && r != t[0];
        assert r in t[1..] ==> r in s && r != s[0];
      }
      SameElements(s[1..], t[1..]);
      assert s == [s[0]] + s[1..] && t == [t[0]] + t[1..];
    }
  }

  /** Why update times must not be zero: a zero cursor asks for the first page again. */
  lemma ZeroCursorRestarts(rows: Rows, limit: int, beforeId: string, status: Option<Status>, page: seq<Incident>)
    ensures IsPage(rows, limit, Recency.ZERO_TIME, beforeId, status, page) <==> IsPage(rows, limit, Recency.ZERO_TIME, "", status, page)
  {
    forall full
      ensures IsListing(rows, Recency.ZERO_TIME, beforeId, status, full) <==> IsListing(rows, Recency.ZERO_TIME, "", status, full)
    {
    }
  }

  /** What a finished walk returns, told by the asked status and the columns: exactly the rows with that status, or all rows when none was
      asked for, each once, the later update before the earlier, and of two at the same time the greater identifier first. */
  lemma WalkReturns(rows: Rows, limit: int, status: Option<Status>, pages: seq<seq<Incident>>)
    requires RowsNamed(rows) && forall id :: id in rows ==> rows[id].updatedAt != Recency.ZERO_TIME
    requires IsWalk(rows, limit, status, pages) && pages != [] && |pages[|pages| - 1]| < EffectiveLimit(limit)
    ensures var all := Concat(pages);
            && (forall id :: id in rows ==> (rows[id] in all <==> status == None || status == Some(rows[id].status)))
            && (forall r :: r in all ==> r.id in rows && rows[r.id] == r)
            && (forall i, j :: 0 <= i < j < |all| ==>
                  all[i].id != all[j].id
                  && (all[i].updatedAt > all[j].updatedAt || (all[i].updatedAt == all[j].updatedAt && Text.Less(all[j].id, all[i].id))))
  {
    WalkIsComplete(rows, limit, status, pages);
    ListingHolds(rows, status, Concat(pages));
    DescendingMeans(rows, Concat(pages));
  }

  lemma ListingHolds(rows: Rows, status: Option<Status>, all: seq<Incident>)
    requires RowsNamed(rows) && IsListing(rows, Recency.ZERO_TIME, "", status, all)
    ensures forall id :: id in rows ==> (rows[id] in all <==> status == None || status == Some(rows[id].status))
    ensures forall r :: r in all ==> r.id in rows && rows[r.id] == r
  {
  }

  lemma DescendingMeans(rows: Rows, all: seq<Incident>)
    requires Descending(all) && forall r :: r in all ==> r.id in rows && rows[r.id] == r
    ensures forall i, j :: 0 <= i < j < |all| ==>
                             all[i].id != all[j].id
                             && (all[i].updatedAt > all[j].updatedAt || (all[i].updatedAt == all[j].updatedAt && Text.Less(all[j].id, all[i].id)))
  {
    forall i, j | 0 <= i < j < |all|
      ensures all[i].id != all[j].id
      ensures all[i].updatedAt > all[j].updatedAt || (all[i].updatedAt == all[j].updatedAt && Text.Less(all[j].id, all[i].id))
    {
      assert Newer(all[i], all[j]);
      Text.LessTotal(all[i].id, all[i].id);
    }
  }

  /** A page is as long as asked for, between one and a thousand and two hundred otherwise, or reaches the end. */
  lemma PageSize(rows: Rows, limit: int, before: int, beforeId: string, status: Option<Status>, page: seq<Incident>)
    requires IsPage(rows, limit, before, beforeId, status, page)
    ensures var size := if 1 <= limit <= 1000 then limit else 200;
            |page| <= size && (|page| < size ==> IsListing(rows, before, beforeId, status, page))
  {
  }
}
