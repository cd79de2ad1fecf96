// Walking lists page by page and texts window by window (agentTraces, agentSessions, agentPage and
// textWindow in internal/web/agent_json.go; ListTraces and ListSessions in internal/store/query.go).
module Paging {
  import opened Prelude
  import opened Seqs
  import opened Order

  // A row of `traces`, or of the grouped sessions: the sort column, the identifier that breaks
  // ties, and what else the listing shows.
  datatype Row = Row(stamp: int, id: string, columns: map<string, string>)

  datatype Cursor = Cursor(stamp: int, id: string)

  // What a request without a cursor sends to the query.
  const NO_CURSOR := Cursor(0, "")

  function CursorOf(row: Row): Cursor {
    Cursor(row.stamp, row.id)
  }

  // ORDER BY stamp DESC, id DESC.
  predicate Newer(a: Row, b: Row) {
    a.stamp > b.stamp || (a.stamp == b.stamp && StrLeq(b.id, a.id))
  }

  // (stamp, id) < (cursor.stamp, cursor.id)
  predicate Below(row: Row, cursor: Cursor) {
    row.stamp < cursor.stamp || (row.stamp == cursor.stamp && StrLeq(row.id, cursor.id) && row.id != cursor.id)
  }

  function Selected(matches: Row -> bool, cursor: Cursor): Row -> bool {
    (row: Row) => matches(row) && (cursor.stamp != 0 ==> Below(row, cursor))
  }

  function Prefix(rows: seq<Row>, n: nat): seq<Row> {
    if |rows| <= n then rows else rows[..n]
  }

  function List(table: seq<Row>, matches: Row -> bool, cursor: Cursor, limit: int): seq<Row> {
    Prefix(Sort((a: Row, b: Row) => Newer(a, b), Filter(Selected(matches, cursor), table)), if limit <= 0 then 100
      else limit)
  }

  datatype Page = Page(items: seq<Row>, next: Option<Cursor>)

  // agentPage on one row more than a page holds.
  function PageOf(rows: seq<Row>, limit: nat): Page
    requires limit > 0
  {
    if |rows| > limit then Page(rows[..limit], Some(CursorOf(rows[limit - 1]))) else Page(rows, None)
  }

  function PageAt(table: seq<Row>, matches: Row -> bool, cursor: Cursor, limit: nat): Page
    requires limit > 0
  {
    PageOf(List(table, matches, cursor, limit + 1), limit)
  }

  predicate IsHex(c: char) {
    '0' <= c <= '9' || 'a' <= c <= 'f' || 'A' <= c <= 'F'
  }

  // What the trace listing asks of a cursor's identifier.
  predicate HexId(id: string) {
    |id| == 32 && forall i :: 0 <= i < |id| ==> IsHex(id[i])
  }

  // That is 16 bytes in hexadecimal digits of either case.
  lemma HexIdIff(id: string)
    ensures HexId(id) <==> |id| == 32 && forall c :: c in id ==> c in "0123456789abcdefABCDEF"
  {
    if HexId(id) {
      forall c | c in id ensures c in "0123456789abcdefABCDEF" {
        var i :| 0 <= i < |id| && id[i] == c;
        HexDigit(c);
      }
    } else if |id| == 32 {
      var i :| 0 <= i < |id| && !IsHex(id[i]);
      assert id[i] in id;
      HexDigit(id[i]);
    }
  }

  lemma HexDigit(c: char)
    ensures IsHex(c) <==> c in "0123456789abcdefABCDEF"
  {
    var digits := "0123456789abcdefABCDEF";
    if '0' <= c <= '9' {
      assert digits[c as int - '0' as int] == c;
    } else if 'a' <= c <= 'f' {
      assert digits[10 + (c as int - 'a' as int)] == c;
    } else if 'A' <= c <= 'F' {
      assert digits[16 + (c as int - 'A' as int)] == c;
    }
  }

  // What the session listing asks.
  predicate NonEmptyId(id: string) {
    id != ""
  }

  // One request; none is the answer 400. `admits` is the listing's check of a cursor's identifier.
  function Request(table: seq<Row>, matches: Row -> bool, admits: string -> bool, cursor: Option<Cursor>,
                   limit: nat): Option<Page>
    requires limit > 0
  {
    if cursor.None? then Some(PageAt(table, matches, NO_CURSOR, limit))
    else if !admits(cursor.value.id) then None
    else Some(PageAt(table, matches, cursor.value, limit))
  }

  // ----- One request -----

  // Identifiers are unique: the primary key of traces, the group key of sessions.
  ghost predicate UniqueIds(rows: seq<Row>) {
    forall i, j :: 0 <= i < j < |rows| ==> rows[i].id != rows[j].id
  }

  // Newest first, no two rows equal in stamp and identifier.
  ghost predicate Descending(rows: seq<Row>) {
    forall i, j :: 0 <= i < j < |rows| ==> Below(rows[j], CursorOf(rows[i]))
  }

  function All(table: seq<Row>, matches: Row -> bool): seq<Row> {
    Sort((a: Row, b: Row) => Newer(a, b), Filter(matches, table))
  }

  lemma NewerIsPreorder()
    ensures Preorder((a: Row, b: Row) => Newer(a, b))
  {
    forall a: Row, b: Row ensures Newer(a, b) || Newer(b, a) {
      StrTotal(a.id, b.id);
    }
    forall a: Row, b: Row, c: Row | Newer(a, b) && Newer(b, c) ensures Newer(a, c) {
      if a.stamp == b.stamp == c.stamp {
        StrTransitive(c.id, b.id, a.id);
      }
    }
  }

  lemma {:induction false} FilterUniqueIds(p: Row -> bool, rows: seq<Row>)
    requires UniqueIds(rows)
    ensures UniqueIds(Filter(p, rows))
  {
    if rows != [] {
      var rest := Filter(p, rows[1..]);
      FilterUniqueIds(p, rows[1..]);
      FilterMembers(p, rows[1..]);
      forall j | 0 <= j < |rest| ensures rest[j].id != rows[0].id {
        assert rest[j] in rest;
        assert rest[j] in rows[1..];
      }
    }
  }

  lemma {:induction false} InsertUniqueIds(leq: (Row, Row) -> bool, x: Row, rows: seq<Row>)
    requires UniqueIds([x] + rows)
    ensures UniqueIds(Insert(leq, x, rows))
  {
    if rows != [] && !leq(x, rows[0]) {
      assert ([x] + rows)[1..] == rows && ([x] + rows)[0] == x;
      assert [x] + rows[1..] == [([x] + rows)[0]] + ([x] + rows)[2..];
      InsertUniqueIds(leq, x, rows[1..]);
      InsertMembers(leq, x, rows[1..]);
      var rest := Insert(leq, x, rows[1..]);
      forall j | 0 <= j < |rest| ensures rest[j].id != rows[0].id {
        assert rest[j] in rest;
        if rest[j] != x {
          var k :| 0 <= k < |rows[1..]| && rows[1..][k] == rest[j];
          assert ([x] + rows)[1] == rows[0] && ([x] + rows)[k + 2] == rest[j];
        } else {
          assert ([x] + rows)[1] == rows[0];
        }
      }
    }
  }

  lemma {:induction false} SortUniqueIds(leq: (Row, Row) -> bool, rows: seq<Row>)
    requires UniqueIds(rows)
    ensures UniqueIds(Sort(leq, rows))
  {
    if rows != [] {
      SortUniqueIds(leq, rows[1..]);
      SortMembers(leq, rows[1..]);
      var rest := Sort(leq, rows[1..]);
      forall j | 0 <= j < |rest| ensures rest[j].id != rows[0].id {
        assert rest[j] in rest;
      }
      InsertUniqueIds(leq, rows[0], rest);
    }
  }

  // A listing is exactly the matching rows, in strictly descending order.
  lemma AllIsDescending(table: seq<Row>, matches: Row -> bool)
    requires UniqueIds(table)
    ensures Descending(All(table, matches))
    ensures forall row :: row in All(table, matches) <==> row in table && matches(row)
  {
    var newer := (a: Row, b: Row) => Newer(a, b);
    var rows := Filter(matches, table);
    FilterMembers(matches, table);
    FilterUniqueIds(matches, table);
    NewerIsPreorder();
    SortSorts(newer, rows);
    SortMembers(newer, rows);
    SortUniqueIds(newer, rows);
    var all := All(table, matches);
    forall i, j | 0 <= i < j < |all| ensures Below(all[j], CursorOf(all[i])) {
      assert newer(all[i], all[j]);
    }
  }

  // Rows in descending order are determined by which rows they are.
  lemma {:induction false} DescendingUnique(a: seq<Row>, b: seq<Row>)
    requires Descending(a) && Descending(b)
    requires forall row :: row in a <==> row in b
    ensures a == b
  {
    assert a != [] ==> a[0] in b;
    assert b != [] ==> b[0] in a;
    if a != [] && b != [] {
      HeadIsHighest(a, b);
      assert a == [a[0]] + a[1..] && b == [b[0]] + b[1..];
      forall row ensures row in a[1..] <==> row in b[1..] {
        InTail(a, row);
        InTail(b, row);
      }
      DescendingUnique(a[1..], b[1..]);
    }
  }

  lemma InTail(a: seq<Row>, row: Row)
    requires Descending(a) && a != []
    ensures row in a[1..] <==> row in a && row != a[0]
  {
    assert a == [a[0]] + a[1..];
    if row in a[1..] {
      var i :| 0 <= i < |a[1..]| && a[1..][i] == row;
      assert Below(a[i + 1], CursorOf(a[0]));
    }
  }

  lemma HeadIsHighest(a: seq<Row>, b: seq<Row>)
    requires Descending(a) && Descending(b) && a != [] && b != []
    requires forall row :: row in a <==> row in b
    ensures a[0] == b[0]
  {
    assert a[0] in b && b[0] in a;
    var i :| 0 <= i < |b| && b[i] == a[0];
    var j :| 0 <= j < |a| && a[j] == b[0];
    if i > 0 && j > 0 {
      assert Below(b[i], CursorOf(b[0])) && Below(a[j], CursorOf(a[0]));
      StrTotal(a[0].id, b[0].id);
    }
  }

  // Continuing after row k leaves exactly the rows that follow it, unless its stamp is zero, when
  // the cursor is taken for none.
  lemma AfterCursor(table: seq<Row>, matches: Row -> bool, k: nat)
    requires UniqueIds(table) && k < |All(table, matches)|
    ensures var all := All(table, matches);
      All(table, Selected(matches, CursorOf(all[k]))) == if all[k].stamp == 0 then all else all[k + 1..]
  {
    var all := All(table, matches);
    var cursor := CursorOf(all[k]);
    var rest := All(table, Selected(matches, cursor));
    AllIsDescending(table, matches);
    AllIsDescending(table, Selected(matches, cursor));
    if cursor.stamp == 0 {
      DescendingUnique(rest, all);
    } else {
      forall row ensures row in rest <==> row in all[k + 1..] {
        BelowIsAfter(all, k, row);
      }
      DescendingUnique(rest, all[k + 1..]);
    }
  }

  lemma BelowIsAfter(all: seq<Row>, k: nat, row: Row)
    requires Descending(all) && k < |all|
    ensures row in all[k + 1..] <==> row in all && Below(row, CursorOf(all[k]))
  {
    assert all == all[..k] + [all[k]] + all[k + 1..];
    if row in all[k + 1..] {
      var i :| 0 <= i < |all[k + 1..]| && all[k + 1..][i] == row;
      assert all[k + 1 + i] == row;
    } else if row in all[..k] {
      var i :| 0 <= i < k && all[i] == row;
      assert Below(all[k], CursorOf(row));
      StrTotal(row.id, all[k].id);
    }
  }

  // ----- The whole walk -----

  // After n requests that each follow the last next_cursor: everything listed so far, and how the
  // walk stands. `ask` answers one request.
  datatype Status = More(cursor: Option<Cursor>) | Complete | Refused

  datatype Walk = Walk(listed: seq<Row>, status: Status)

  type Ask = Option<Cursor> -> Option<Page>

  function Asking(table: seq<Row>, matches: Row -> bool, admits: string -> bool, limit: nat): Ask
    requires limit > 0
  {
    (cursor: Option<Cursor>) => Request(table, matches, admits, cursor, limit)
  }

  function Follow(ask: Ask, walk: Walk): Walk {
    if !walk.status.More? then walk
    else
      var page := ask(walk.status.cursor);
      if page.None? then Walk(walk.listed, Refused)
      else Walk(walk.listed + page.value.items, if page.value.next.Some? then More(page.value.next) else Complete)
  }

  function WalkFor(ask: Ask, n: nat): Walk {
    if n == 0 then Walk([], More(None)) else Follow(ask, WalkFor(ask, n - 1))
  }

  // The number of rows on n full pages.
  function Rows(limit: nat, n: nat): nat {
    if n == 0 then 0 else Rows(limit, n - 1) + limit
  }

  lemma {:induction false} RowsGrow(limit: nat, a: nat, b: nat)
    requires a <= b && limit > 0
    ensures Rows(limit, a) + (b - a) <= Rows(limit, b)
  {
    if a < b {
      RowsGrow(limit, a, b - 1);
    }
  }

  // Page n ends, with more rows to come, at a row from which the walk cannot go on.
  ghost predicate Stuck(all: seq<Row>, admits: string -> bool, limit: nat, n: nat) {
    0 < Rows(limit, n) < |all| && (all[Rows(limit, n) - 1].stamp == 0 || !admits(all[Rows(limit, n) - 1].id))
  }

  ghost predicate Resumable(all: seq<Row>, admits: string -> bool, limit: nat) {
    forall n: nat :: !Stuck(all, admits, limit, n)
  }

  ghost predicate FirstStuck(all: seq<Row>, admits: string -> bool, limit: nat, stuck: nat) {
    Stuck(all, admits, limit, stuck) && forall n | 0 <= n < stuck :: !Stuck(all, admits, limit, n)
  }

  // The page that starts at row i.
  function PageFrom(all: seq<Row>, i: nat, limit: nat): Page
    requires limit > 0 && i <= |all|
  {
    Page(all[i..Min(i + limit, |all|)], if |all| > i + limit then Some(CursorOf(all[i + limit - 1])) else None)
  }

  lemma RequestAt(table: seq<Row>, matches: Row -> bool, limit: nat, cursor: Cursor, i: nat)
    requires limit > 0 && i <= |All(table, matches)|
    requires All(table, Selected(matches, cursor)) == All(table, matches)[i..]
    ensures PageAt(table, matches, cursor, limit) == PageFrom(All(table, matches), i, limit)
  {
    var all, rows := All(table, matches), List(table, matches, cursor, limit + 1);
    assert rows == Prefix(all[i..], limit + 1);
    if |all| > i + limit {
      assert rows == all[i..i + limit + 1];
      assert rows[..limit] == all[i..i + limit] && rows[limit - 1] == all[i + limit - 1];
    } else {
      assert rows == all[i..|all|];
    }
  }

  // What the requests of a listing answer: the first page, and for the cursor of a row a refusal,
  // the first page again, or the page after that row.
  ghost predicate Serves(ask: Ask, all: seq<Row>, admits: string -> bool, limit: nat)
    requires limit > 0
  {
    && ask(None) == Some(PageFrom(all, 0, limit))
    && forall i :: 0 <= i < |all| ==>
         ask(Some(CursorOf(all[i]))) ==
           if !admits(all[i].id) then None else Some(PageFrom(all, if all[i].stamp == 0 then 0 else i + 1, limit))
  }

  lemma RequestsServe(table: seq<Row>, matches: Row -> bool, admits: string -> bool, limit: nat)
    requires limit > 0 && UniqueIds(table)
    ensures Serves(Asking(table, matches, admits, limit), All(table, matches), admits, limit)
  {
    var all, ask := All(table, matches), Asking(table, matches, admits, limit);
    FirstRequest(table, matches);
    RequestAt(table, matches, limit, NO_CURSOR, 0);
    forall i | 0 <= i < |all|
      ensures ask(Some(CursorOf(all[i]))) ==
        if !admits(all[i].id) then None else Some(PageFrom(all, if all[i].stamp == 0 then 0 else i + 1, limit))
    {
      AfterCursor(table, matches, i);
      assert all[0..] == all;
      RequestAt(table, matches, limit, CursorOf(all[i]), if all[i].stamp == 0 then 0 else i + 1);
    }
  }

  lemma FirstRequest(table: seq<Row>, matches: Row -> bool)
    ensures All(table, Selected(matches, NO_CURSOR)) == All(table, matches)[0..]
  {
    FilterSame(Selected(matches, NO_CURSOR), matches, table);
  }

  // Where a walk stands with its first `done` rows listed.
  ghost predicate Stands(all: seq<Row>, done: nat, walk: Walk) {
    && walk.listed == Prefix(all, done)
    && walk.status ==
       if done == 0 then More(None) else if done < |all| then More(Some(CursorOf(all[done - 1]))) else Complete
  }

  lemma NextPrefix(all: seq<Row>, limit: nat, done: nat)
    requires limit > 0 && done <= |all|
    ensures Prefix(all, done) + all[done..Min(done + limit, |all|)] == Prefix(all, done + limit)
  {
  }

  lemma NotStuck(all: seq<Row>, admits: string -> bool, limit: nat, n: nat)
    requires !Stuck(all, admits, limit, n)
    ensures CanResume(all, admits, Rows(limit, n))
  {
  }

  predicate CanResume(all: seq<Row>, admits: string -> bool, done: nat) {
    0 < done < |all| ==> all[done - 1].stamp != 0 && admits(all[done - 1].id)
  }

  lemma StaysComplete(all: seq<Row>, done: nat, limit: nat, walk: Walk)
    requires Stands(all, done, walk) && !walk.status.More?
    ensures Stands(all, done + limit, walk)
  {
  }

  lemma StandsNext(ask: Ask, all: seq<Row>, admits: string -> bool, limit: nat, done: nat, walk: Walk)
    requires limit > 0 && Serves(ask, all, admits, limit)
    requires Stands(all, done, walk) && CanResume(all, admits, done)
    ensures Stands(all, done + limit, Follow(ask, walk))
  {
    if walk.status.More? {
      NextPrefix(all, limit, done);
    } else {
      StaysComplete(all, done, limit, walk);
    }
  }

  lemma PageFollows(ask: Ask, all: seq<Row>, admits: string -> bool, limit: nat, n: nat, walk: Walk)
    requires limit > 0 && Serves(ask, all, admits, limit) && !Stuck(all, admits, limit, n)
    requires Stands(all, Rows(limit, n), walk)
    ensures Stands(all, Rows(limit, n + 1), Follow(ask, walk))
  {
    NotStuck(all, admits, limit, n);
    StandsNext(ask, all, admits, limit, Rows(limit, n), walk);
  }

  // As long as no page ends badly, n requests have listed the first n pages in order, each row
  // once, and the walk goes on exactly while rows remain.
  lemma {:induction false} WalkIsExact(ask: Ask, all: seq<Row>, admits: string -> bool, limit: nat, n: nat)
    requires limit > 0 && Serves(ask, all, admits, limit) && forall m | 0 <= m < n :: !Stuck(all, admits, limit, m)
    ensures Stands(all, Rows(limit, n), WalkFor(ask, n))
  {
    if n > 0 {
      WalkIsExact(ask, all, admits, limit, n - 1);
      PageFollows(ask, all, admits, limit, n - 1, WalkFor(ask, n - 1));
    }
  }

  // The first page that ends badly ends at an identifier the check refuses: it is the last one, and
  // the rest is never listed.
  lemma {:induction false} WalkIsRefused(ask: Ask, all: seq<Row>, admits: string -> bool, limit: nat, stuck: nat,
                                         n: nat)
    requires limit > 0 && Serves(ask, all, admits, limit) && FirstStuck(all, admits, limit, stuck)
    requires !admits(all[Rows(limit, stuck) - 1].id) && n > stuck
    ensures WalkFor(ask, n) == Walk(all[..Rows(limit, stuck)], Refused)
  {
    if n > stuck + 1 {
      WalkIsRefused(ask, all, admits, limit, stuck, n - 1);
    } else {
      WalkIsExact(ask, all, admits, limit, stuck);
    }
  }

  // A next cursor at the end of a page up to the first stuck one.
  ghost predicate AtPage(all: seq<Row>, limit: nat, stuck: nat, page: nat, status: Status) {
    && 0 < page <= stuck && 0 < Rows(limit, page) < |all|
    && status == More(Some(CursorOf(all[Rows(limit, page) - 1])))
  }

  lemma PageOne(ask: Ask, all: seq<Row>, admits: string -> bool, limit: nat, stuck: nat, walk: Walk)
    requires limit > 0 && Serves(ask, all, admits, limit) && FirstStuck(all, admits, limit, stuck) && walk.status.More?
    requires ask(walk.status.cursor) == Some(PageFrom(all, 0, limit))
    ensures AtPage(all, limit, stuck, 1, Follow(ask, walk).status)
  {
    RowsGrow(limit, 1, stuck);
    assert Rows(limit, 1) == Rows(limit, 0) + limit;
  }

  lemma NextPage(ask: Ask, all: seq<Row>, admits: string -> bool, limit: nat, stuck: nat, page: nat, walk: Walk)
    requires limit > 0 && Serves(ask, all, admits, limit) && FirstStuck(all, admits, limit, stuck)
    requires admits(all[Rows(limit, stuck) - 1].id) && AtPage(all, limit, stuck, page, walk.status)
    ensures AtPage(all, limit, stuck, if page == stuck then 1 else page + 1, Follow(ask, walk).status)
  {
    if page == stuck {
      PageOne(ask, all, admits, limit, stuck, walk);
    } else {
      RowsGrow(limit, page + 1, stuck);
      NotStuck(all, admits, limit, page);
    }
  }

  // It ends at stamp zero instead: the walk goes back to the start, and never ends.
  lemma {:induction false} WalkNeverEnds(ask: Ask, all: seq<Row>, admits: string -> bool, limit: nat, stuck: nat,
                                         n: nat)
    returns (page: nat)
    requires limit > 0 && Serves(ask, all, admits, limit) && FirstStuck(all, admits, limit, stuck)
    requires admits(all[Rows(limit, stuck) - 1].id)
    ensures WalkFor(ask, n).status.More?
    ensures n > 0 ==> AtPage(all, limit, stuck, page, WalkFor(ask, n).status)
  {
    page := 0;
    if n > 0 {
      page := WalkNeverEnds(ask, all, admits, limit, stuck, n - 1);
      if n == 1 {
        PageOne(ask, all, admits, limit, stuck, WalkFor(ask, 0));
        page := 1;
      } else {
        NextPage(ask, all, admits, limit, stuck, page, WalkFor(ask, n - 1));
        page := if page == stuck then 1 else page + 1;
      }
    }
  }

  // What becomes of a walk, by whether and where it first gets stuck.
  lemma ResumableCompletes(ask: Ask, all: seq<Row>, admits: string -> bool, limit: nat)
    requires limit > 0 && Serves(ask, all, admits, limit) && Resumable(all, admits, limit)
    ensures WalkFor(ask, |all| + 1) == Walk(all, Complete)
    ensures forall n: nat :: WalkFor(ask, n).status != Refused
    ensures forall n: nat | WalkFor(ask, n).status == Complete :: WalkFor(ask, n).listed == all
  {
    forall n: nat ensures Stands(all, Rows(limit, n), WalkFor(ask, n)) {
      WalkIsExact(ask, all, admits, limit, n);
    }
    RowsGrow(limit, 0, |all| + 1);
    assert Stands(all, Rows(limit, |all| + 1), WalkFor(ask, |all| + 1));
    forall n: nat
      ensures WalkFor(ask, n).status != Refused
      ensures WalkFor(ask, n).status == Complete ==> WalkFor(ask, n).listed == all
    {
      assert Stands(all, Rows(limit, n), WalkFor(ask, n));
    }
  }

  lemma StuckNeverCompletes(ask: Ask, all: seq<Row>, admits: string -> bool, limit: nat, stuck: nat, n: nat)
    requires limit > 0 && Serves(ask, all, admits, limit) && FirstStuck(all, admits, limit, stuck)
    ensures WalkFor(ask, n).status != Complete
    ensures WalkFor(ask, n).status == Refused <==> n > stuck && !admits(all[Rows(limit, stuck) - 1].id)
  {
    if admits(all[Rows(limit, stuck) - 1].id) {
      var _ := WalkNeverEnds(ask, all, admits, limit, stuck, n);
    } else if n > stuck {
      WalkIsRefused(ask, all, admits, limit, stuck, n);
    } else {
      WalkIsExact(ask, all, admits, limit, n);
      RowsGrow(limit, n, stuck);
    }
  }

  lemma {:induction false} LeastStuck(all: seq<Row>, admits: string -> bool, limit: nat, n: nat) returns (stuck: nat)
    requires Stuck(all, admits, limit, n)
    ensures FirstStuck(all, admits, limit, stuck)
  {
    if earlier: nat :| earlier < n && Stuck(all, admits, limit, earlier) {
      stuck := LeastStuck(all, admits, limit, earlier);
    } else {
      stuck := n;
    }
  }

  // Following next_cursor completes if and only if no page that has rows after it ends at a stamp
  // of zero or at an identifier that the cursor check refuses, and then everything is listed.
  lemma WalkCompletesIff(table: seq<Row>, matches: Row -> bool, admits: string -> bool, limit: nat)
    requires limit > 0 && UniqueIds(table)
    ensures var ask, all := Asking(table, matches, admits, limit), All(table, matches);
      && ((exists n: nat :: WalkFor(ask, n).status == Complete) <==> Resumable(all, admits, limit))
      && (forall n: nat | WalkFor(ask, n).status == Complete :: WalkFor(ask, n).listed == all)
  {
    var ask, all := Asking(table, matches, admits, limit), All(table, matches);
    RequestsServe(table, matches, admits, limit);
    if Resumable(all, admits, limit) {
      ResumableCompletes(ask, all, admits, limit);
    } else {
      var m: nat :| Stuck(all, admits, limit, m);
      var stuck := LeastStuck(all, admits, limit, m);
      forall n: nat ensures WalkFor(ask, n).status != Complete {
        StuckNeverCompletes(ask, all, admits, limit, stuck, n);
      }
    }
  }

  // It ends in a refusal if and only if the first page that ends badly does so at such an
  // identifier; otherwise, if it does not complete, it goes on for ever.
  lemma WalkRefusedIff(table: seq<Row>, matches: Row -> bool, admits: string -> bool, limit: nat)
    requires limit > 0 && UniqueIds(table)
    ensures var ask, all := Asking(table, matches, admits, limit), All(table, matches);
      (exists n: nat :: WalkFor(ask, n).status == Refused) <==>
        exists stuck: nat :: FirstStuck(all, admits, limit, stuck) && !admits(all[Rows(limit, stuck) - 1].id)
  {
    var ask, all := Asking(table, matches, admits, limit), All(table, matches);
    RequestsServe(table, matches, admits, limit);
    if stuck: nat :| FirstStuck(all, admits, limit, stuck) && !admits(all[Rows(limit, stuck) - 1].id) {
      StuckNeverCompletes(ask, all, admits, limit, stuck, stuck + 1);
      assert WalkFor(ask, stuck + 1).status == Refused;
    }
    if n: nat :| WalkFor(ask, n).status == Refused {
      if Resumable(all, admits, limit) {
        ResumableCompletes(ask, all, admits, limit);
      } else {
        var m: nat :| Stuck(all, admits, limit, m);
        var stuck := LeastStuck(all, admits, limit, m);
        StuckNeverCompletes(ask, all, admits, limit, stuck, n);
      }
    }
  }

  // The session listing has no row without an identifier, so its walk is never refused: it completes
  // if and only if no page with rows after it ends at a session whose last end is zero.
  lemma SessionWalk(table: seq<Row>, matches: Row -> bool, limit: nat)
    requires limit > 0 && UniqueIds(table) && forall row :: matches(row) ==> row.id != ""
    ensures var ask, all := Asking(table, matches, (id: string) => NonEmptyId(id), limit), All(table, matches);
      && (forall n: nat :: WalkFor(ask, n).status != Refused)
      && ((exists n: nat :: WalkFor(ask, n).status == Complete) <==>
          forall n: nat :: 0 < Rows(limit, n) < |all| ==> all[Rows(limit, n) - 1].stamp != 0)
  {
    var admits, all := (id: string) => NonEmptyId(id), All(table, matches);
    AllIsDescending(table, matches);
    forall i | 0 <= i < |all| ensures admits(all[i].id) {
      assert all[i] in all;
    }
    WalkCompletesIff(table, matches, admits, limit);
    WalkRefusedIff(table, matches, admits, limit);
    if Resumable(all, admits, limit) {
      forall n: nat | 0 < Rows(limit, n) < |all| ensures all[Rows(limit, n) - 1].stamp != 0 {
        assert !Stuck(all, admits, limit, n);
      }
    } else {
      var n: nat :| Stuck(all, admits, limit, n);
      assert all[Rows(limit, n) - 1].stamp == 0;
    }
  }

  // For instance a trace stored under 32 characters that are no hexadecimal digits, at the end of
  // the first page.
  lemma OddTraceIdEndsTheWalk(a: Row, b: Row)
    requires a.id != b.id && Newer(a, b) && a.stamp != 0 && !HexId(a.id)
    ensures WalkFor(Asking([a, b], (row: Row) => true, (id: string) => HexId(id), 1), 2) == Walk([a], Refused)
  {
    var table, matches, admits := [a, b], (row: Row) => true, (id: string) => HexId(id);
    FilterAll(matches, table);
    TwoSorted(a, b);
    assert All(table, matches) == [a, b];
    RequestsServe(table, matches, admits, 1);
    assert Rows(1, 0) == 0 && Rows(1, 1) == 1;
    assert FirstStuck([a, b], admits, 1, 1);
    WalkIsRefused(Asking(table, matches, admits, 1), [a, b], admits, 1, 1, 2);
  }

  lemma TwoSorted(a: Row, b: Row)
    requires Newer(a, b)
    ensures Sort((x: Row, y: Row) => Newer(x, y), [a, b]) == [a, b]
  {
    var newer := (x: Row, y: Row) => Newer(x, y);
    assert [a, b][1..] == [b] && [b][1..] == [] && Sort(newer, [b]) == [b];
    assert Insert(newer, a, [b]) == [a] + [b];
  }

  // ----- Text windows -----

  datatype Window<T> = Window(text: seq<T>, total: nat, next: Option<nat>)

  // On the text's code points.
  function TextWindow<T>(runes: seq<T>, offset: nat, length: nat): Window<T> {
    if offset >= |runes| then Window([], |runes|, None)
    else
      var end := offset + Min(length, |runes| - offset);
      Window(runes[offset..end], |runes|, if end < |runes| then Some(end) else None)
  }

  // A window holds as many code points as are asked for, or all that are left; it says how many the text
  // has, and where to go on exactly if more follow.
  lemma WindowHolds<T>(runes: seq<T>, offset: nat, length: nat)
    ensures var window := TextWindow(runes, offset, length);
      && window.total == |runes| && |window.text| <= length
      && (offset <= |runes| ==> window.text <= runes[offset..])
      && (window.next.Some? <==> offset + length < |runes|)
      && (window.next.Some? ==> window.next.value == offset + length && |window.text| == length)
      && (window.next.None? && offset <= |runes| ==> window.text == runes[offset..])
  {
  }

  // The windows from an offset on, joined.
  function ReadFrom<T>(runes: seq<T>, offset: nat, length: nat): seq<T>
    requires length > 0
    decreases |runes| - offset
  {
    var window := TextWindow(runes, offset, length);
    window.text + if window.next.Some? then ReadFrom(runes, window.next.value, length) else []
  }

  lemma {:induction false} WindowsJoinToTheText<T>(runes: seq<T>, offset: nat, length: nat)
    requires length > 0
    ensures ReadFrom(runes, offset, length) == if offset <= |runes| then runes[offset..] else []
    decreases |runes| - offset
  {
    var window := TextWindow(runes, offset, length);
    if window.next.Some? {
      WindowsJoinToTheText(runes, window.next.value, length);
      assert runes[offset..] == runes[offset..window.next.value] + runes[window.next.value..];
    }
  }
}
