/**
  * The page builder: rows are merged in order, the first `start` of them skipped, and the
  * rest cut into pages by rows and bytes. Each page reads the indexes under guards of its
  * own, so rows may be gone or compare differently from one page to the next.
  */
module Pages {
  import opened Merge
  import opened Options

  const PAGE_ROWS: nat := 4096
  /** The longest frame a client takes. */
  const MAX_SERVER_FRAME: nat := 0x100_0000
  const PAGE_BYTE_BUDGET: nat := MAX_SERVER_FRAME / 2
  const U32_MAX: nat := 0xFFFF_FFFF

  /** Runs, the order to take whole runs in if there is one, and which merged rows to send. */
  datatype Query = Query(lens: seq<nat>, turn: Option<seq<nat>>, start: nat, end: nat, totalSize: bool) {

    ghost predicate Ok() {
      ListsRuns(turn, |lens|) && start <= end <= Sum(lens)
    }

    /** Length prefix and page header: tag, two counters, flags, count, and the size sum if asked for. */
    function HeaderBytes(): nat {
      4 + 22 + if totalSize then 8 else 0
    }
  }

  /** What building one page leaves: positions, rows merged, rows sent, bytes written. */
  datatype Built = Built(pos: seq<nat>, merged: seq<Row>, rows: seq<Row>, bytes: nat)

  datatype Page = Page(rows: seq<Row>, more: bool, payload: nat)

  /** The row is past the offset and can be shown. */
  predicate Sends(q: Query, w: World, consumed: nat, row: Row) {
    consumed > q.start && w.presentable(row)
  }

  /** One turn of the page loop: the runs are used up, or a row is taken. */
  datatype Taken = Stop(pos: seq<nat>) | Take(row: Row, pos: seq<nat>)

  function TakeOne(q: Query, w: World, pos: seq<nat>): (t: Taken)
    requires Within(q.lens, pos)
    ensures Within(q.lens, t.pos)
  {
    var p := Skip(w, q.lens, pos);
    var ri := Pick(w, q.turn, q.lens, p);
    if ri.None? then Stop(p) else Take(Row(ri.value, p[ri.value]), Advance(p, ri.value))
  }

  lemma SkipAdvances(w: World, lens: seq<nat>, pos: seq<nat>)
    requires Within(lens, pos)
    ensures Ahead(pos, Skip(w, lens, pos)) && Sum(pos) <= Sum(Skip(w, lens, pos)) <= Sum(lens)
  {
    SumMonotone(pos, Skip(w, lens, pos));
    SumMonotone(Skip(w, lens, pos), lens);
  }

  /** The turn moves on, counting what it skips, and takes a row that is valid now. */
  lemma TakeAdvances(q: Query, w: World, pos: seq<nat>)
    requires Within(q.lens, pos)
    ensures Ahead(pos, TakeOne(q, w, pos).pos)
    ensures Sum(pos) <= Sum(TakeOne(q, w, pos).pos) <= Sum(q.lens)
    ensures TakeOne(q, w, pos).Take? ==> Sum(pos) < Sum(TakeOne(q, w, pos).pos) && TakenRow(q, w, pos)
  {
    hide Pick, Sum;
    var t := TakeOne(q, w, pos);
    var p := Skip(w, q.lens, pos);
    SkipAdvances(w, q.lens, pos);
    if t.Take? {
      SumUpdate(p, t.row.run, p[t.row.run] + 1);
    }
    SumMonotone(t.pos, q.lens);
  }

  ghost predicate TakenRow(q: Query, w: World, pos: seq<nat>)
    requires Within(q.lens, pos) && TakeOne(q, w, pos).Take?
  {
    var t := TakeOne(q, w, pos);
    t.row.run < |pos| && pos[t.row.run] <= t.row.at < t.pos[t.row.run] && w.valid(t.row)
  }

  /** Rows are found until every run is used up. */
  lemma StopsAtEnd(q: Query, w: World, pos: seq<nat>)
    requires q.Ok() && Within(q.lens, pos) && TakeOne(q, w, pos).Stop?
    ensures Sum(TakeOne(q, w, pos).pos) == Sum(q.lens)
  {
    PickNone(w, q.turn, q.lens, Skip(w, q.lens, pos));
  }

  /** No run goes back. */
  ghost predicate Ahead(pos: seq<nat>, pos': seq<nat>) {
    |pos| == |pos'| && forall r :: 0 <= r < |pos| ==> pos[r] <= pos'[r]
  }

  /** The page is full or the last row is merged. */
  predicate PageEnds(q: Query, pos: seq<nat>, taken: nat, bytes: nat) {
    taken >= PAGE_ROWS || Sum(pos) >= q.end || bytes >= PAGE_BYTE_BUDGET
  }

  /** One page from `pos` on, `taken` rows and `bytes` bytes into it. */
  function Fill(q: Query, w: World, pos: seq<nat>, taken: nat, bytes: nat): (out: Built)
    requires Within(q.lens, pos)
    ensures Within(q.lens, out.pos)
    decreases Sum(q.lens) - Sum(pos)
  {
    if PageEnds(q, pos, taken, bytes) then Built(pos, [], [], bytes) else
    TakeAdvances(q, w, pos);
    var t := TakeOne(q, w, pos);
    if t.Stop? then Built(t.pos, [], [], bytes) else
    var sends := Sends(q, w, Sum(t.pos), t.row);
    var rest := Fill(q, w, t.pos, taken + 1, if sends then bytes + w.size(t.row) else bytes);
    Built(rest.pos, [t.row] + rest.merged, (if sends then [t.row] else []) + rest.rows, rest.bytes)
  }

  /** What `Fill` does in one turn. */
  lemma FillTurn(q: Query, w: World, pos: seq<nat>, taken: nat, bytes: nat)
    requires Within(q.lens, pos) && !PageEnds(q, pos, taken, bytes)
    ensures TakeOne(q, w, pos).Stop? ==> Fill(q, w, pos, taken, bytes) == Built(TakeOne(q, w, pos).pos, [], [], bytes)
    ensures TakeOne(q, w, pos).Take? ==>
              var t := TakeOne(q, w, pos);
              var sends := Sends(q, w, Sum(t.pos), t.row);
              var rest := Fill(q, w, t.pos, taken + 1, if sends then bytes + w.size(t.row) else bytes);
              Fill(q, w, pos, taken, bytes)
              == Built(rest.pos, [t.row] + rest.merged, (if sends then [t.row] else []) + rest.rows, rest.bytes)
  {
    hide TakeOne, Sum, Within;
    TakeAdvances(q, w, pos);
  }

  lemma FillEnds(q: Query, w: World, pos: seq<nat>, taken: nat, bytes: nat)
    requires Within(q.lens, pos) && PageEnds(q, pos, taken, bytes)
    ensures Fill(q, w, pos, taken, bytes) == Built(pos, [], [], bytes)
  {
    hide PageEnds, Within;
  }

  /** Positions only move on. */
  lemma {:induction false} FillMonotone(q: Query, w: World, pos: seq<nat>, taken: nat, bytes: nat)
    requires Within(q.lens, pos)
    ensures Ahead(pos, Fill(q, w, pos, taken, bytes).pos)
    ensures Sum(pos) <= Sum(Fill(q, w, pos, taken, bytes).pos) <= Sum(q.lens)
    decreases Sum(q.lens) - Sum(pos)
  {
    hide TakeOne, Sends;
    TakeAdvances(q, w, pos);
    var t := TakeOne(q, w, pos);
    if !PageEnds(q, pos, taken, bytes) && t.Take? {
      FillMonotone(q, w, t.pos, taken + 1, if Sends(q, w, Sum(t.pos), t.row) then bytes + w.size(t.row) else bytes);
    }
  }

  /** A page with rows left to merge moves on. */
  lemma FillProgresses(q: Query, w: World, pos: seq<nat>)
    requires q.Ok() && Within(q.lens, pos) && Sum(pos) < q.end
    ensures Sum(pos) < Sum(Fill(q, w, pos, 0, q.HeaderBytes()).pos)
  {
    hide TakeOne, Sends;
    TakeAdvances(q, w, pos);
    var t, bytes := TakeOne(q, w, pos), q.HeaderBytes();
    if t.Stop? {
      StopsAtEnd(q, w, pos);
    } else {
      FillMonotone(q, w, t.pos, 1, if Sends(q, w, Sum(t.pos), t.row) then bytes + w.size(t.row) else bytes);
    }
  }

  /** The page `Fill` builds from `pos` on. */
  function PageOf(q: Query, w: World, pos: seq<nat>): Page
    requires Within(q.lens, pos)
  {
    var out := Fill(q, w, pos, 0, q.HeaderBytes());
    Page(out.rows, Sum(out.pos) < q.end, if out.bytes >= 4 then out.bytes - 4 else 0)
  }

  /** Where the page leaves the runs. */
  function PosAfter(q: Query, w: World, pos: seq<nat>): (pos': seq<nat>)
    requires Within(q.lens, pos)
    ensures Within(q.lens, pos')
  {
    Fill(q, w, pos, 0, q.HeaderBytes()).pos
  }

  lemma PosAfterMoves(q: Query, w: World, pos: seq<nat>)
    requires q.Ok() && Within(q.lens, pos)
    ensures Ahead(pos, PosAfter(q, w, pos)) && Sum(PosAfter(q, w, pos)) <= Sum(q.lens)
    ensures PageOf(q, w, pos).more ==> Sum(pos) < Sum(PosAfter(q, w, pos))
    ensures PageOf(q, w, pos).more <==> Sum(PosAfter(q, w, pos)) < q.end
  {
    hide Fill;
    FillMonotone(q, w, pos, 0, q.HeaderBytes());
    if Sum(pos) < q.end { FillProgresses(q, w, pos); }
  }

  /** The pages from page `k` on: page `k` is built under `worlds(k)` and taken over if `taken(k)`. */
  function Stream(q: Query, worlds: nat -> World, taken: nat -> bool, k: nat, pos: seq<nat>): (pages: seq<Page>)
    requires q.Ok() && Within(q.lens, pos)
    ensures pages != []
    decreases Sum(q.lens) - Sum(pos)
  {
    PosAfterMoves(q, worlds(k), pos);
    var page := PageOf(q, worlds(k), pos);
    if taken(k) && page.more then [page] + Stream(q, worlds, taken, k + 1, PosAfter(q, worlds(k), pos)) else [page]
  }

  // -- rows gone or changed between pages ---------------------------------------------------------

  /** The rows lie between the positions. */
  ghost predicate RowsFrom(pos: seq<nat>, pos': seq<nat>, rows: seq<Row>) {
    && |pos| == |pos'|
    && forall i :: 0 <= i < |rows| ==>
         rows[i].run < |pos| && pos[rows[i].run] <= rows[i].at < pos'[rows[i].run]
  }

  ghost predicate NoRepeat(rows: seq<Row>) {
    forall i, j :: 0 <= i < j < |rows| ==> rows[i] != rows[j]
  }

  ghost predicate Shown(w: World, rows: seq<Row>) {
    forall i :: 0 <= i < |rows| ==> w.valid(rows[i]) && w.presentable(rows[i])
  }

  lemma NoRepeatConcat(pos: seq<nat>, mid: seq<nat>, end: seq<nat>, a: seq<Row>, b: seq<Row>)
    requires Ahead(pos, mid) && Ahead(mid, end)
    requires RowsFrom(pos, mid, a) && RowsFrom(mid, end, b) && NoRepeat(a) && NoRepeat(b)
    ensures RowsFrom(pos, end, a + b) && NoRepeat(a + b)
  {
  }

  /** A page sends no row twice. */
  lemma {:induction false} FillRows(q: Query, w: World, pos: seq<nat>, taken: nat, bytes: nat)
    requires Within(q.lens, pos)
    ensures RowsFrom(pos, Fill(q, w, pos, taken, bytes).pos, Fill(q, w, pos, taken, bytes).rows)
    ensures NoRepeat(Fill(q, w, pos, taken, bytes).rows)
    decreases Sum(q.lens) - Sum(pos)
  {
    hide Fill, TakeOne, Sum, Within, NoRepeat, RowsFrom, Ahead, PageEnds, Sends;
    TakeAdvances(q, w, pos);
    var t := TakeOne(q, w, pos);
    if PageEnds(q, pos, taken, bytes) {
      FillEnds(q, w, pos, taken, bytes);
      AheadSelf(pos);
      FirstRow(pos, pos, None);
    } else if t.Stop? {
      FillTurn(q, w, pos, taken, bytes);
      FirstRow(pos, t.pos, None);
    } else {
      FillTurn(q, w, pos, taken, bytes);
      var sends := Sends(q, w, Sum(t.pos), t.row);
      var bytes' := if sends then bytes + w.size(t.row) else bytes;
      FirstRow(pos, t.pos, if sends then Some(t.row) else None);
      FillRows(q, w, t.pos, taken + 1, bytes');
      FillMonotone(q, w, t.pos, taken + 1, bytes');
      NoRepeatConcat(pos, t.pos, Fill(q, w, t.pos, taken + 1, bytes').pos,
                     if sends then [t.row] else [], Fill(q, w, t.pos, taken + 1, bytes').rows);
    }
  }

  lemma AheadSelf(pos: seq<nat>)
    ensures Ahead(pos, pos)
  {
  }

  lemma FirstRow(pos: seq<nat>, pos': seq<nat>, row: Option<Row>)
    requires Ahead(pos, pos')
    requires row.Some? ==> row.value.run < |pos| && pos[row.value.run] <= row.value.at < pos'[row.value.run]
    ensures var rows := if row.Some? then [row.value] else []; RowsFrom(pos, pos', rows) && NoRepeat(rows)
  {
  }

  /** A page sends rows that are valid under its guards. */
  lemma {:induction false} FillShown(q: Query, w: World, pos: seq<nat>, taken: nat, bytes: nat)
    requires Within(q.lens, pos)
    ensures Shown(w, Fill(q, w, pos, taken, bytes).rows)
    decreases Sum(q.lens) - Sum(pos)
  {
    hide TakeOne, Sum, Within;
    TakeAdvances(q, w, pos);
    var t := TakeOne(q, w, pos);
    if !PageEnds(q, pos, taken, bytes) && t.Take? {
      var sends := Sends(q, w, Sum(t.pos), t.row);
      var bytes' := if sends then bytes + w.size(t.row) else bytes;
      FillShown(q, w, t.pos, taken + 1, bytes');
      ShownConcat(w, if sends then [t.row] else [], Fill(q, w, t.pos, taken + 1, bytes').rows);
    }
  }

  lemma ShownConcat(w: World, a: seq<Row>, b: seq<Row>)
    requires Shown(w, a) && Shown(w, b)
    ensures Shown(w, a + b)
  {
  }

  lemma {:induction false} FillCount(q: Query, w: World, pos: seq<nat>, taken: nat, bytes: nat)
    requires Within(q.lens, pos) && taken <= PAGE_ROWS
    ensures |Fill(q, w, pos, taken, bytes).rows| <= PAGE_ROWS - taken
    decreases Sum(q.lens) - Sum(pos)
  {
    hide TakeOne, Sum;
    TakeAdvances(q, w, pos);
    var t := TakeOne(q, w, pos);
    if !PageEnds(q, pos, taken, bytes) && t.Take? {
      FillCount(q, w, t.pos, taken + 1, if Sends(q, w, Sum(t.pos), t.row) then bytes + w.size(t.row) else bytes);
    }
  }

  /** The most rows still to be sent once `consumed` rows are merged. */
  function Room(q: Query, consumed: nat): nat {
    if consumed >= q.end then 0
    else if consumed > q.start then q.end - consumed
    else if q.end > q.start then q.end - q.start
    else 1
  }

  lemma {:induction false} FillWithinRoom(q: Query, w: World, pos: seq<nat>, taken: nat, bytes: nat)
    requires Within(q.lens, pos) && q.start <= q.end
    ensures var out := Fill(q, w, pos, taken, bytes); |out.rows| + Room(q, Sum(out.pos)) <= Room(q, Sum(pos))
    decreases Sum(q.lens) - Sum(pos)
  {
    hide TakeOne, Sum;
    TakeAdvances(q, w, pos);
    var t := TakeOne(q, w, pos);
    if !PageEnds(q, pos, taken, bytes) && t.Take? {
      FillWithinRoom(q, w, t.pos, taken + 1, if Sends(q, w, Sum(t.pos), t.row) then bytes + w.size(t.row) else bytes);
    }
  }

  /** No row is longer than half a frame. */
  ghost predicate RowsFitHalf(w: World) {
    forall row :: w.size(row) <= PAGE_BYTE_BUDGET
  }

  lemma {:induction false} FillBytes(q: Query, w: World, pos: seq<nat>, taken: nat, bytes: nat)
    requires Within(q.lens, pos) && RowsFitHalf(w) && 4 <= bytes < MAX_SERVER_FRAME
    ensures 4 <= Fill(q, w, pos, taken, bytes).bytes < MAX_SERVER_FRAME
    decreases Sum(q.lens) - Sum(pos)
  {
    hide TakeOne, Sum;
    TakeAdvances(q, w, pos);
    var t := TakeOne(q, w, pos);
    if !PageEnds(q, pos, taken, bytes) && t.Take? {
      FillBytes(q, w, t.pos, taken + 1, if Sends(q, w, Sum(t.pos), t.row) then bytes + w.size(t.row) else bytes);
    }
  }

  /** The rows of all pages, one after the other. */
  function AllRows(pages: seq<Page>): seq<Row> {
    if pages == [] then [] else pages[0].rows + AllRows(pages[1..])
  }

  /** The page can be sent: it holds a bounded number of rows valid under its guards, in a frame the client takes. */
  ghost predicate GoodPage(w: World, page: Page) {
    Shown(w, page.rows) && |page.rows| <= PAGE_ROWS && (RowsFitHalf(w) ==> page.payload < MAX_SERVER_FRAME)
  }

  lemma PageIsGood(q: Query, w: World, pos: seq<nat>)
    requires Within(q.lens, pos)
    ensures GoodPage(w, PageOf(q, w, pos))
  {
    hide Fill;
    FillShown(q, w, pos, 0, q.HeaderBytes());
    FillCount(q, w, pos, 0, q.HeaderBytes());
    if RowsFitHalf(w) {
      FillBytes(q, w, pos, 0, q.HeaderBytes());
    }
  }

  /**
    * Page `k` of the stream is the first of `pages`: every page but the last says that
    * more follow, and the last one only if the reader is gone.
    */
  ghost predicate MoreUntilLast(pages: seq<Page>, taken: nat -> bool, k: nat) {
    if |pages| <= 1 then pages != [] && (pages[0].more ==> !taken(k))
    else pages[0].more && taken(k) && MoreUntilLast(pages[1..], taken, k + 1)
  }

  /** Each page is good under its own guards. */
  ghost predicate GoodPages(pages: seq<Page>, worlds: nat -> World, k: nat) {
    pages != [] ==> GoodPage(worlds(k), pages[0]) && GoodPages(pages[1..], worlds, k + 1)
  }

  lemma PagesCons(page: Page, rest: seq<Page>, worlds: nat -> World, taken: nat -> bool, k: nat)
    requires page.more && taken(k) && GoodPage(worlds(k), page)
    requires MoreUntilLast(rest, taken, k + 1) && GoodPages(rest, worlds, k + 1)
    ensures MoreUntilLast([page] + rest, taken, k) && GoodPages([page] + rest, worlds, k)
  {
    hide GoodPage;
    assert ([page] + rest)[1..] == rest;
  }

  /**
    * However rows go stale or change between pages: the stream ends, every page but the
    * last says that more follow, each page is good under its own guards, no row is sent
    * twice, and no more rows than there is room for.
    */
  lemma {:induction false} StreamSafe(q: Query, worlds: nat -> World, taken: nat -> bool, k: nat, pos: seq<nat>)
    requires q.Ok() && Within(q.lens, pos)
    ensures MoreUntilLast(Stream(q, worlds, taken, k, pos), taken, k)
    ensures GoodPages(Stream(q, worlds, taken, k, pos), worlds, k)
    ensures NoRepeat(AllRows(Stream(q, worlds, taken, k, pos)))
    ensures RowsFrom(pos, q.lens, AllRows(Stream(q, worlds, taken, k, pos)))
    ensures |AllRows(Stream(q, worlds, taken, k, pos))| <= Room(q, Sum(pos))
    decreases Sum(q.lens) - Sum(pos)
  {
    hide Fill, PageOf, PosAfter, Sum, GoodPage, NoRepeat, RowsFrom, Room, Within, Ahead, Query.Ok;
    var page, next := PageOf(q, worlds(k), pos), PosAfter(q, worlds(k), pos);
    PosAfterMoves(q, worlds(k), pos);
    PageIsGood(q, worlds(k), pos);
    PageRows(q, worlds(k), pos);
    if taken(k) && page.more {
      StreamSafe(q, worlds, taken, k + 1, next);
      var rest := Stream(q, worlds, taken, k + 1, next);
      PagesCons(page, rest, worlds, taken, k);
      WithinAhead(q.lens, next);
      NoRepeatConcat(pos, next, q.lens, page.rows, AllRows(rest));
      assert ([page] + rest)[1..] == rest;
    } else {
      assert [page][1..] == [] && page.rows + [] == page.rows;
    }
  }

  // -- nothing is left out, and no page is cut short -------------------------------------------------

  /** The row is at or after the positions and stays valid and showable. */
  ghost predicate Lasting(q: Query, w: World, pos: seq<nat>, row: Row) {
    && row.run < |pos| == |q.lens| && pos[row.run] <= row.at < q.lens[row.run]
    && w.valid(row) && w.presentable(row)
  }

  /** A turn takes a lasting row, or leaves it ahead. */
  lemma TakePasses(q: Query, w: World, pos: seq<nat>, row: Row)
    requires Within(q.lens, pos) && Lasting(q, w, pos, row)
    ensures var t := TakeOne(q, w, pos); t.pos[row.run] <= row.at || (t.Take? && t.row == row)
  {
    hide Pick;
    var p := Skip(w, q.lens, pos);
    SkipStops(w, q.lens, pos, row);
  }

  /** Only rows that are gone are skipped. */
  lemma SkipStops(w: World, lens: seq<nat>, pos: seq<nat>, row: Row)
    requires Within(lens, pos) && row.run < |pos| && pos[row.run] <= row.at < lens[row.run] && w.valid(row)
    ensures Skip(w, lens, pos)[row.run] <= row.at
  {
    var r := row.run;
    assert Skip(w, lens, pos)[r] == SkipRun(w, r, lens[r], pos[r]) && row == Row(r, row.at);
  }

  /** A page sends every lasting row it passes, if it is past the offset. */
  lemma {:induction false} FillPasses(q: Query, w: World, pos: seq<nat>, taken: nat, bytes: nat, row: Row)
    requires Within(q.lens, pos) && q.start <= Sum(pos) && Lasting(q, w, pos, row)
    ensures var out := Fill(q, w, pos, taken, bytes); out.pos[row.run] <= row.at || row in out.rows
    decreases Sum(q.lens) - Sum(pos)
  {
    hide TakeOne, Sum;
    TakeAdvances(q, w, pos);
    TakePasses(q, w, pos, row);
    var t := TakeOne(q, w, pos);
    if !PageEnds(q, pos, taken, bytes) && t.Take? {
      var sends := Sends(q, w, Sum(t.pos), t.row);
      var bytes' := if sends then bytes + w.size(t.row) else bytes;
      if t.pos[row.run] <= row.at { FillPasses(q, w, t.pos, taken + 1, bytes', row); }
    }
  }

  /**
    * However other rows change or go: without offset and limit, a row that stays valid and showable
    * is sent, if the reader stays.
    */
  lemma {:induction false} StreamComplete(q: Query, worlds: nat -> World, taken: nat -> bool, k: nat, pos: seq<nat>,
                                          row: Row)
    requires q.Ok() && Within(q.lens, pos) && q.start == 0 && q.end == Sum(q.lens)
    requires forall j :: Lasting(q, worlds(j), pos, row) && taken(j)
    ensures row in AllRows(Stream(q, worlds, taken, k, pos))
    decreases Sum(q.lens) - Sum(pos)
  {
    hide Fill, Sum, Within, Query.Ok;
    var page, next := PageOf(q, worlds(k), pos), PosAfter(q, worlds(k), pos);
    PosAfterMoves(q, worlds(k), pos);
    assert Lasting(q, worlds(k), pos, row) && taken(k);
    FillPasses(q, worlds(k), pos, 0, q.HeaderBytes(), row);
    if page.more {
      var rest := Stream(q, worlds, taken, k + 1, next);
      assert ([page] + rest)[1..] == rest;
      if row !in page.rows {
        forall j ensures Lasting(q, worlds(j), next, row) && taken(j) {
          assert Lasting(q, worlds(j), pos, row) && taken(j);
        }
        StreamComplete(q, worlds, taken, k + 1, next, row);
      }
    } else {
      if next[row.run] <= row.at { NotAtEnd(q, next, row); }
      assert [page][1..] == [] && page.rows + [] == page.rows;
    }
  }

  lemma NotAtEnd(q: Query, pos: seq<nat>, row: Row)
    requires Within(q.lens, pos) && row.run < |pos| && pos[row.run] <= row.at < q.lens[row.run]
    ensures Sum(pos) < Sum(q.lens)
  {
    hide Sum;
    SumUpdate(pos, row.run, pos[row.run] + 1);
    SumMonotone(Advance(pos, row.run), q.lens);
  }

  /** The bytes of the rows. */
  function Bytes(w: World, rows: seq<Row>): nat {
    if rows == [] then 0 else w.size(rows[0]) + Bytes(w, rows[1..])
  }

  lemma {:induction false} FillSize(q: Query, w: World, pos: seq<nat>, taken: nat, bytes: nat)
    requires Within(q.lens, pos)
    ensures var out := Fill(q, w, pos, taken, bytes); out.bytes == bytes + Bytes(w, out.rows)
    decreases Sum(q.lens) - Sum(pos)
  {
    hide Fill, TakeOne, Sum, Within, PageEnds, Sends;
    TakeAdvances(q, w, pos);
    var t := TakeOne(q, w, pos);
    if PageEnds(q, pos, taken, bytes) {
      FillEnds(q, w, pos, taken, bytes);
    } else {
      FillTurn(q, w, pos, taken, bytes);
      if t.Take? {
        var sends := Sends(q, w, Sum(t.pos), t.row);
        var bytes' := if sends then bytes + w.size(t.row) else bytes;
        FillSize(q, w, t.pos, taken + 1, bytes');
        var rest := Fill(q, w, t.pos, taken + 1, bytes').rows;
        assert ([t.row] + rest)[1..] == rest && [] + rest == rest;
      }
    }
  }

  lemma {:induction false} FillFull(q: Query, w: World, pos: seq<nat>, taken: nat, bytes: nat)
    requires q.Ok() && Within(q.lens, pos)
    ensures var out := Fill(q, w, pos, taken, bytes);
            Sum(out.pos) < q.end ==> taken + |out.merged| >= PAGE_ROWS || out.bytes >= PAGE_BYTE_BUDGET
    decreases Sum(q.lens) - Sum(pos)
  {
    hide Fill, TakeOne, Sum, Within, Sends;
    TakeAdvances(q, w, pos);
    var t := TakeOne(q, w, pos);
    if PageEnds(q, pos, taken, bytes) {
      FillEnds(q, w, pos, taken, bytes);
    } else {
      FillTurn(q, w, pos, taken, bytes);
      if t.Stop? {
        StopsAtEnd(q, w, pos);
      } else {
        FillFull(q, w, t.pos, taken + 1, if Sends(q, w, Sum(t.pos), t.row) then bytes + w.size(t.row) else bytes);
      }
    }
  }

  /**
    * A page's payload is its header of 22 bytes, 30 with a size sum, and its rows; one that says
    * more follow merged a full page of rows or filled half a frame.
    */
  lemma PageIsFull(q: Query, w: World, pos: seq<nat>)
    requires q.Ok() && Within(q.lens, pos)
    ensures var page := PageOf(q, w, pos);
            && page.payload == (if q.totalSize then 30 else 22) + Bytes(w, page.rows)
            && (page.more ==>
                  || |Fill(q, w, pos, 0, q.HeaderBytes()).merged| >= PAGE_ROWS
                  || page.payload + 4 >= PAGE_BYTE_BUDGET)
  {
    hide Fill, Sum, Bytes;
    FillSize(q, w, pos, 0, q.HeaderBytes());
    FillFull(q, w, pos, 0, q.HeaderBytes());
  }

  lemma WithinAhead(lens: seq<nat>, pos: seq<nat>)
    requires Within(lens, pos)
    ensures Ahead(pos, lens)
  {
  }

  lemma PageRows(q: Query, w: World, pos: seq<nat>)
    requires q.Ok() && Within(q.lens, pos)
    ensures var page, next := PageOf(q, w, pos), PosAfter(q, w, pos);
            && RowsFrom(pos, next, page.rows) && RowsFrom(pos, q.lens, page.rows) && NoRepeat(page.rows)
            && |page.rows| + Room(q, Sum(next)) <= Room(q, Sum(pos))
  {
    hide Fill, Sum, Room;
    FillRows(q, w, pos, 0, q.HeaderBytes());
    FillWithinRoom(q, w, pos, 0, q.HeaderBytes());
  }

  // -- nothing changes between pages -----------------------------------------------------------

  /** Rows compare by `le` and show by `shown`, no row is gone, and the turn agrees with the comparison. */
  ghost predicate Steady(q: Query, w: World, le: Order, shown: Row -> bool) {
    && Settled(w, le)
    && (forall row :: w.presentable(row) == shown(row))
    && (forall pos {:trigger Pick(w, q.turn, q.lens, pos)} ::
          Within(q.lens, pos) ==> Pick(w, q.turn, q.lens, pos) == Best(w, q.lens, pos, |q.lens|))
  }

  /** The guards of a page on which nothing ever changes. */
  function Still(le: Order): World {
    World(_ => true, (a, b) => !le(b, a), _ => true, _ => 0)
  }

  lemma {:induction false} BestStill(w: World, le: Order, lens: seq<nat>, pos: seq<nat>, n: nat)
    requires Settled(w, le) && Within(lens, pos) && n <= |lens|
    ensures Best(w, lens, pos, n) == Best(Still(le), lens, pos, n)
    decreases n
  {
    if n > 0 { BestStill(w, le, lens, pos, n - 1); }
  }

  /** The positions after `m` takes. */
  function After(le: Order, lens: seq<nat>, pos: seq<nat>, m: nat): (pos': seq<nat>)
    requires Within(lens, pos)
    ensures Within(lens, pos')
    decreases m
  {
    var best := Best(Still(le), lens, pos, |lens|);
    if m == 0 || best.None? then pos else After(le, lens, Advance(pos, best.value), m - 1)
  }

  /** Of rows merged after `consumed` others, those past the offset that show. */
  function Sent(shown: Row -> bool, start: nat, consumed: nat, rows: seq<Row>): seq<Row>
    decreases |rows|
  {
    if rows == [] then [] else
    (if consumed + 1 > start && shown(rows[0]) then [rows[0]] else []) + Sent(shown, start, consumed + 1, rows[1..])
  }

  lemma {:induction false} SentConcat(shown: Row -> bool, start: nat, consumed: nat, a: seq<Row>, b: seq<Row>)
    ensures Sent(shown, start, consumed, a + b)
            == Sent(shown, start, consumed, a) + Sent(shown, start, consumed + |a|, b)
    decreases |a|
  {
    if a == [] {
      assert a + b == b;
    } else {
      assert (a + b)[1..] == a[1..] + b;
      SentConcat(shown, start, consumed + 1, a[1..], b);
    }
  }

  /** The rows that show. */
  function Filter(shown: Row -> bool, rows: seq<Row>): seq<Row> {
    if rows == [] then [] else (if shown(rows[0]) then [rows[0]] else []) + Filter(shown, rows[1..])
  }

  /** What is sent is what shows of the rows from the offset on. */
  lemma {:induction false} SentIsSlice(shown: Row -> bool, start: nat, consumed: nat, rows: seq<Row>)
    requires consumed <= start <= consumed + |rows| || start <= consumed
    ensures Sent(shown, start, consumed, rows)
            == Filter(shown, rows[if start <= consumed then 0 else start - consumed..])
    decreases |rows|
  {
    if rows != [] {
      SentIsSlice(shown, start, consumed + 1, rows[1..]);
      if start <= consumed {
        assert rows[0..] == rows && rows[1..][0..] == rows[1..];
      } else {
        assert rows[1..][start - consumed - 1..] == rows[start - consumed..];
      }
    }
  }

  /** A turn of the page loop on which nothing is stale takes the next row of the merge. */
  lemma TakeSteady(q: Query, w: World, le: Order, shown: Row -> bool, pos: seq<nat>)
    requires Within(q.lens, pos) && Steady(q, w, le, shown)
    ensures var t, best := TakeOne(q, w, pos), Best(Still(le), q.lens, pos, |q.lens|);
            if best.None? then t == Stop(pos) else t == Take(Row(best.value, pos[best.value]), Advance(pos, best.value))
    ensures forall row :: w.presentable(row) == shown(row)
  {
    assert Skip(w, q.lens, pos) == pos;
    BestStill(w, le, q.lens, pos, |q.lens|);
  }

  lemma {:induction false} GreedySplit(le: Order, lens: seq<nat>, pos: seq<nat>, m: nat, n: nat)
    requires Within(lens, pos)
    ensures Greedy(Still(le), lens, pos, m + n)
            == Greedy(Still(le), lens, pos, m) + Greedy(Still(le), lens, After(le, lens, pos, m), n)
    decreases m
  {
    var best := Best(Still(le), lens, pos, |lens|);
    if m > 0 && best.Some? {
      GreedySplit(le, lens, Advance(pos, best.value), m - 1, n);
    }
  }

  /** A page on which nothing changes takes the next rows of the merge, and stops at the end of the query. */
  lemma {:induction false} FillSteady(q: Query, w: World, le: Order, shown: Row -> bool, pos: seq<nat>, taken: nat,
    bytes: nat)
    returns (m: nat)
    requires Within(q.lens, pos) && Steady(q, w, le, shown) && Sum(pos) <= q.end <= Sum(q.lens)
    ensures Sum(pos) + m == Sum(Fill(q, w, pos, taken, bytes).pos) <= q.end
    ensures Fill(q, w, pos, taken, bytes).pos == After(le, q.lens, pos, m)
    ensures Fill(q, w, pos, taken, bytes).rows
            == Sent(shown, q.start, Sum(pos), Greedy(Still(le), q.lens, pos, m))
    decreases Sum(q.lens) - Sum(pos)
  {
    hide Fill, TakeOne, Sum, Best, Steady, Within, Greedy, After, Sent;
    m := 0;
    TakenNone(le, q.lens, pos);
    assert Sent(shown, q.start, Sum(pos), []) == [] by { SentNone(shown, q.start, Sum(pos)); }
    if PageEnds(q, pos, taken, bytes) {
      FillEnds(q, w, pos, taken, bytes);
    } else {
      TakeSteady(q, w, le, shown, pos);
      SumStep(Still(le), q.lens, pos);
      var t := TakeOne(q, w, pos);
      var sends := Sends(q, w, Sum(t.pos), t.row);
      FillTurn(q, w, pos, taken, bytes);
      m := FillSteady(q, w, le, shown, t.pos, taken + 1, if sends then bytes + w.size(t.row) else bytes);
      TakenOne(le, q.lens, pos, m);
      SentCons(shown, q.start, Sum(pos), t.row, Greedy(Still(le), q.lens, t.pos, m));
      m := m + 1;
    }
  }

  lemma TakenNone(le: Order, lens: seq<nat>, pos: seq<nat>)
    requires Within(lens, pos)
    ensures Greedy(Still(le), lens, pos, 0) == [] && After(le, lens, pos, 0) == pos
  {
  }

  lemma TakenOne(le: Order, lens: seq<nat>, pos: seq<nat>, m: nat)
    requires Within(lens, pos) && Best(Still(le), lens, pos, |lens|).Some?
    ensures var best := Best(Still(le), lens, pos, |lens|).value;
            && Greedy(Still(le), lens, pos, m + 1)
               == [Row(best, pos[best])] + Greedy(Still(le), lens, Advance(pos, best), m)
            && After(le, lens, pos, m + 1) == After(le, lens, Advance(pos, best), m)
  {
    hide Best;
  }

  lemma SentNone(shown: Row -> bool, start: nat, consumed: nat)
    ensures Sent(shown, start, consumed, []) == []
  {
  }

  lemma SentCons(shown: Row -> bool, start: nat, consumed: nat, row: Row, rest: seq<Row>)
    ensures Sent(shown, start, consumed, [row] + rest)
            == (if consumed + 1 > start && shown(row) then [row] else []) + Sent(shown, start, consumed + 1, rest)
  {
    assert ([row] + rest)[1..] == rest;
  }

  lemma {:induction false} StreamSteady(
    q: Query, worlds: nat -> World, taken: nat -> bool, le: Order, shown: Row -> bool, k: nat, pos: seq<nat>)
    requires q.Ok() && Within(q.lens, pos) && Sum(pos) <= q.end
    requires forall j :: Steady(q, worlds(j), le, shown) && taken(j)
    ensures AllRows(Stream(q, worlds, taken, k, pos))
            == Sent(shown, q.start, Sum(pos), Greedy(Still(le), q.lens, pos, q.end - Sum(pos)))
    decreases Sum(q.lens) - Sum(pos)
  {
    hide Fill, Sum, Steady, Within, Greedy, After;
    assert Steady(q, worlds(k), le, shown) && taken(k);
    var page, next := PageOf(q, worlds(k), pos), PosAfter(q, worlds(k), pos);
    PosAfterMoves(q, worlds(k), pos);
    var m := FillSteady(q, worlds(k), le, shown, pos, 0, q.HeaderBytes());
    if page.more {
      StreamSteady(q, worlds, taken, le, shown, k + 1, next);
      var rest := Stream(q, worlds, taken, k + 1, next);
      assert ([page] + rest)[1..] == rest;
      GreedySplit(le, q.lens, pos, m, q.end - Sum(next));
      GreedyLength(Still(le), q.lens, pos, m);
      SentConcat(shown, q.start, Sum(pos), Greedy(Still(le), q.lens, pos, m),
        Greedy(Still(le), q.lens, next, q.end - Sum(next)));
    } else {
      assert [page][1..] == [] && page.rows + [] == page.rows;
    }
  }

  // -- offset and limit ------------------------------------------------------------------------

  function Min(a: nat, b: nat): nat {
    if a < b then a else b
  }

  /** `u32` addition that saturates. */
  function SaturatingAdd(a: nat, b: nat): nat {
    Min(a + b, U32_MAX)
  }

  /** How many rows of each volume the search returns. */
  function RunLengths(found: seq<nat>, offset: nat, limit: Option<nat>): seq<nat> {
    if limit.None? then found else Cut(found, SaturatingAdd(offset, limit.value))
  }

  /** The first merged row to send of `n`. */
  function First(offset: nat, n: nat): nat {
    Min(offset, n)
  }

  /** One past the last merged row to send of `n`. */
  function Last(offset: nat, limit: Option<nat>, n: nat): nat {
    if limit.None? then n else Min(First(offset, n) + limit.value, n)
  }

  function QueryFor(lens: seq<nat>, turn: Option<seq<nat>>, offset: nat, limit: Option<nat>, totalSize: bool): Query {
    Query(lens, turn, First(offset, Sum(lens)), Last(offset, limit, Sum(lens)), totalSize)
  }

  /**
    * Cutting the runs changes neither which positions are sent, those from the offset to the limit
    * or the end of all rows found, nor the merged rows up to there.
    */
  lemma CutIsUnseen(le: Order, found: seq<nat>, offset: nat, limit: Option<nat>)
    requires forall r :: 0 <= r < |found| ==> found[r] <= U32_MAX
    ensures var lens, n := RunLengths(found, offset, limit), Sum(found);
            var hi := if limit.None? || n < offset + limit.value then n else offset + limit.value;
            && First(offset, Sum(lens)) == (if offset < n then offset else n)
            && Last(offset, limit, Sum(lens)) == hi
            && Within(lens, Outset(|lens|)) && Within(found, Outset(|found|)) && |lens| == |found|
            && Greedy(Still(le), lens, Outset(|lens|), hi) == Greedy(Still(le), found, Outset(|found|), hi)
  {
    hide Greedy, Sum, Best;
    if limit.Some? {
      var cap := SaturatingAdd(offset, limit.value);
      SumCut(found, cap);
      if Cut(found, cap) == found {
      } else {
        assert cap == offset + limit.value;
        GreedyCut(Still(le), found, cap, Outset(|found|), cap);
      }
    }
  }

  /**
    * When nothing changes while the pages are built, the rows sent are exactly the rows
    * from the offset to the limit of the stable merge of all rows found, ties to the earlier
    * volume, though each volume returned only its first offset plus limit rows.
    */
  lemma PagesAreStableMerge(
    found: seq<nat>, turn: Option<seq<nat>>, offset: nat, limit: Option<nat>, totalSize: bool,
    worlds: nat -> World, taken: nat -> bool, le: Order, shown: Row -> bool, merged: seq<Row>)
    requires forall r :: 0 <= r < |found| ==> found[r] <= U32_MAX
    requires TotalPreorder(le) && SortedRuns(le, found) && StableMerge(le, found, merged)
    requires ListsRuns(turn, |found|)
    requires var q := QueryFor(RunLengths(found, offset, limit), turn, offset, limit, totalSize);
             forall j :: Steady(q, worlds(j), le, shown) && taken(j)
    ensures var lens, n := RunLengths(found, offset, limit), |merged|;
            var q := QueryFor(lens, turn, offset, limit, totalSize);
            var lo := if offset < n then offset else n;
            var hi := if limit.None? || n < offset + limit.value then n else offset + limit.value;
            && q.Ok() && Within(q.lens, Outset(|lens|)) && lo <= hi
            && AllRows(Stream(q, worlds, taken, 0, Outset(|lens|))) == Filter(shown, merged[lo..hi])
  {
    hide Steady, Greedy, StableMerge, SortedRuns, TotalPreorder, Stream, AllRows, Sent, Filter, Sum, RunLengths, Within;
    var lens := RunLengths(found, offset, limit);
    var q := QueryFor(lens, turn, offset, limit, totalSize);
    CutIsUnseen(le, found, offset, limit);
    MergedPrefix(le, found, merged, q.end);
    SumOutset(|found|);
    StreamSteady(q, worlds, taken, le, shown, 0, Outset(|lens|));
    SentIsSlice(shown, q.start, 0, merged[..q.end]);
    assert merged[..q.end][q.start..] == merged[q.start..q.end];
  }

  /** The first rows of the stable merge are the first rows taken. */
  lemma MergedPrefix(le: Order, lens: seq<nat>, merged: seq<Row>, k: nat)
    requires TotalPreorder(le) && SortedRuns(le, lens) && StableMerge(le, lens, merged) && k <= Sum(lens)
    ensures Within(lens, Outset(|lens|)) && |merged| == Sum(lens)
    ensures Greedy(Still(le), lens, Outset(|lens|), k) == merged[..k]
  {
    hide Greedy, SortedRuns, TotalPreorder, Sum;
    var zeros := Outset(|lens|);
    SumOutset(|lens|);
    StillSettled(le);
    GreedyIsStableMerge(Still(le), le, lens);
    StableMergeUnique(le, lens, merged, Greedy(Still(le), lens, zeros, Sum(lens)));
    GreedyPrefix(Still(le), lens, zeros, k, Sum(lens));
    GreedyLength(Still(le), lens, zeros, k);
  }

  lemma StillSettled(le: Order)
    ensures Settled(Still(le), le)
  {
  }

  /**
    * However rows change, a limit of at least one is kept; limit 0 lets at most one row through, none
    * without an offset inside the rows.
    */
  lemma LimitKept(
    lens: seq<nat>, turn: Option<seq<nat>>, offset: nat, limit: nat, totalSize: bool, worlds: nat -> World,
      taken: nat -> bool)
    requires ListsRuns(turn, |lens|)
    ensures var q := QueryFor(lens, turn, offset, Some(limit), totalSize);
            && q.Ok() && Within(q.lens, Outset(|lens|))
            && var sent := |AllRows(Stream(q, worlds, taken, 0, Outset(|lens|)))|;
               && sent <= (if limit == 0 then 1 else limit)
               && (limit >= 1 || offset == 0 || offset >= Sum(lens) ==> sent <= limit)
  {
    hide Stream, AllRows, NoRepeat, RowsFrom, GoodPages, MoreUntilLast;
    var q := QueryFor(lens, turn, offset, Some(limit), totalSize);
    SumOutset(|lens|);
    StreamSafe(q, worlds, taken, 0, Outset(|lens|));
    if offset >= Sum(lens) {
      NothingPastOffset(q, worlds, taken, 0, Outset(|lens|));
    }
  }

  lemma {:induction false} FillNothing(q: Query, w: World, pos: seq<nat>, taken: nat, bytes: nat)
    requires Within(q.lens, pos) && q.start >= Sum(q.lens)
    ensures Fill(q, w, pos, taken, bytes).rows == []
    decreases Sum(q.lens) - Sum(pos)
  {
    hide TakeOne, Sum;
    TakeAdvances(q, w, pos);
    var t := TakeOne(q, w, pos);
    if !PageEnds(q, pos, taken, bytes) && t.Take? {
      FillNothing(q, w, t.pos, taken + 1, bytes);
    }
  }

  /** An offset past every row sends nothing. */
  lemma {:induction false} NothingPastOffset(q: Query, worlds: nat -> World, taken: nat -> bool, k: nat, pos: seq<nat>)
    requires q.Ok() && Within(q.lens, pos) && q.start >= Sum(q.lens)
    ensures AllRows(Stream(q, worlds, taken, k, pos)) == []
    decreases Sum(q.lens) - Sum(pos)
  {
    hide Fill, Sum, Within;
    var page, next := PageOf(q, worlds(k), pos), PosAfter(q, worlds(k), pos);
    PosAfterMoves(q, worlds(k), pos);
    FillNothing(q, worlds(k), pos, 0, q.HeaderBytes());
    if taken(k) && page.more {
      NothingPastOffset(q, worlds, taken, k + 1, next);
      assert ([page] + Stream(q, worlds, taken, k + 1, next))[1..] == Stream(q, worlds, taken, k + 1, next);
    } else {
      assert [page][1..] == [];
    }
  }

  /** The guards under which the first `n` rows, run after run, are gone. */
  function FirstGone(lens: seq<nat>, n: nat): World {
    World((row: Row) => row.run <= |lens| && Sum(lens[..row.run]) + row.at >= n, (a, b) => false, _ => true, _ => 0)
  }

  lemma {:induction false} SkipGone(lens: seq<nat>, n: nat, r: nat, p: nat)
    requires r < |lens| && p <= lens[r] && (p == 0 || Sum(lens[..r]) + p <= n)
    ensures SkipRun(FirstGone(lens, n), r, lens[r], p)
            == if n <= Sum(lens[..r]) then p else Min(n - Sum(lens[..r]), lens[r])
    decreases lens[r] - p
  {
    if p < lens[r] && Sum(lens[..r]) + p < n {
      SkipGone(lens, n, r, p + 1);
    }
  }

  /** Skipping them skips exactly `n` rows. */
  lemma {:induction false} SkipGoneSum(lens: seq<nat>, n: nat, r: nat)
    requires r <= |lens|
    ensures Within(lens, Outset(|lens|))
    ensures Sum(Skip(FirstGone(lens, n), lens, Outset(|lens|))[..r]) == Min(n, Sum(lens[..r]))
  {
    var p := Skip(FirstGone(lens, n), lens, Outset(|lens|));
    if r > 0 {
      SkipGoneSum(lens, n, r - 1);
      SkipGone(lens, n, r - 1, 0);
      assert p[..r][..r - 1] == p[..r - 1] && lens[..r][..r - 1] == lens[..r - 1];
    }
  }

  lemma GoneTurn(q: Query, offset: nat)
    requires q.Ok() && 0 < offset < Sum(q.lens)
    ensures Within(q.lens, Outset(|q.lens|))
    ensures TakeOne(q, FirstGone(q.lens, offset), Outset(|q.lens|)).Take?
    ensures Sum(TakeOne(q, FirstGone(q.lens, offset), Outset(|q.lens|)).pos) == offset + 1
  {
    hide Pick, FirstGone;
    var lens, w := q.lens, FirstGone(q.lens, offset);
    SkipGoneSum(lens, offset, |lens|);
    var p := Skip(w, lens, Outset(|lens|));
    assert p[..|lens|] == p && lens[..|lens|] == lens;
    PickNone(w, q.turn, lens, p);
    var t := TakeOne(q, w, Outset(|lens|));
    SumUpdate(p, t.row.run, p[t.row.run] + 1);
  }

  /** Limit 0 with an offset inside the rows: when the rows up to the offset are gone, one row is sent. */
  lemma LimitZeroPassed(lens: seq<nat>, turn: Option<seq<nat>>, offset: nat, totalSize: bool)
    requires ListsRuns(turn, |lens|) && 0 < offset < Sum(lens)
    ensures var q := QueryFor(lens, turn, offset, Some(0), totalSize);
            && q.Ok() && Within(q.lens, Outset(|lens|))
            && |AllRows(Stream(q, _ => FirstGone(lens, offset), _ => true, 0, Outset(|lens|)))| == 1
  {
    hide TakeOne, Sum, Within;
    var q, w, zeros := QueryFor(lens, turn, offset, Some(0), totalSize), FirstGone(lens, offset), Outset(|lens|);
    SumOutset(|lens|);
    GoneTurn(q, offset);
    OneRowPage(q, w, zeros);
    var page := PageOf(q, w, zeros);
    hide Fill, PageOf;
    assert Stream(q, _ => w, _ => true, 0, zeros) == [page];
    assert [page][1..] == [] && AllRows([page]) == page.rows + AllRows([]);
  }

  /** A first turn that passes the end of the query with a row that shows makes a page of that row. */
  lemma OneRowPage(q: Query, w: World, pos: seq<nat>)
    requires Within(q.lens, pos) && TakeOne(q, w, pos).Take? && Sum(pos) < q.end
    requires Sum(TakeOne(q, w, pos).pos) > q.start && Sum(TakeOne(q, w, pos).pos) >= q.end
    requires w.presentable(TakeOne(q, w, pos).row)
    ensures |PageOf(q, w, pos).rows| == 1 && !PageOf(q, w, pos).more
  {
    hide TakeOne, Sum, Within;
    var t, bytes := TakeOne(q, w, pos), q.HeaderBytes();
    FillTurn(q, w, pos, 0, bytes);
    assert Fill(q, w, t.pos, 1, bytes + w.size(t.row)) == Built(t.pos, [], [], bytes + w.size(t.row));
  }

  // -- the loop ----------------------------------------------------------------------------------

  /** One turn of the page loop on the running count. */
  method TakeNext(q: Query, w: World, pos: seq<nat>, consumed: nat) returns (t: Taken, consumed': nat)
    requires Within(q.lens, pos) && consumed == Sum(pos)
    ensures t == TakeOne(q, w, pos) && consumed' == Sum(t.pos)
  {
    hide Sum;
    var pos', ri;
    pos', consumed', ri := NextHead(w, q.turn, q.lens, pos, consumed);
    if ri.None? {
      t := Stop(pos');
    } else {
      SumUpdate(pos', ri.value, pos'[ri.value] + 1);
      t := Take(Row(ri.value, pos'[ri.value]), Advance(pos', ri.value));
      consumed' := consumed' + 1;
    }
  }

  /** Builds one page: positions and count move on together. */
  method BuildPage(q: Query, w: World, pos: seq<nat>, consumed: nat)
    returns (page: Page, pos': seq<nat>, consumed': nat)
    requires Within(q.lens, pos) && consumed == Sum(pos)
    ensures pos' == PosAfter(q, w, pos) && consumed' == Sum(pos') && page == PageOf(q, w, pos)
  {
    hide TakeOne, Sum, Within, Fill;
    var rows, bytes: nat, taken: nat := [], q.HeaderBytes(), 0;
    pos', consumed' := pos, consumed;
    ghost var out := Fill(q, w, pos, 0, q.HeaderBytes());
    while taken < PAGE_ROWS && consumed' < q.end && bytes < PAGE_BYTE_BUDGET
      invariant Within(q.lens, pos') && consumed' == Sum(pos')
      invariant out.pos == Fill(q, w, pos', taken, bytes).pos
      invariant out.rows == rows + Fill(q, w, pos', taken, bytes).rows
      invariant out.bytes == Fill(q, w, pos', taken, bytes).bytes
      decreases PAGE_ROWS - taken
    {
      FillTurn(q, w, pos', taken, bytes);
      var t;
      t, consumed' := TakeNext(q, w, pos', consumed');
      pos' := t.pos;
      if t.Stop? {
        page := Page(rows, consumed' < q.end, if bytes >= 4 then bytes - 4 else 0);
        return;
      }
      taken := taken + 1;
      if consumed' > q.start && w.presentable(t.row) {
        bytes := bytes + w.size(t.row);
        rows := rows + [t.row];
      }
    }
    FillEnds(q, w, pos', taken, bytes);
    page := Page(rows, consumed' < q.end, if bytes >= 4 then bytes - 4 else 0);
  }

  lemma WithinOutset(lens: seq<nat>)
    ensures Within(lens, Outset(|lens|))
  {
  }

  /** What `Stream` does in one turn. */
  lemma StreamTurn(q: Query, worlds: nat -> World, taken: nat -> bool, k: nat, pos: seq<nat>)
    requires q.Ok() && Within(q.lens, pos)
    ensures Stream(q, worlds, taken, k, pos)
            == [PageOf(q, worlds(k), pos)]
               + if taken(k) && PageOf(q, worlds(k), pos).more
                 then Stream(q, worlds, taken, k + 1, PosAfter(q, worlds(k), pos)) else []
  {
    hide PageOf, PosAfter, Sum, Within;
    PosAfterMoves(q, worlds(k), pos);
  }

  /**
    * The whole reply: page after page until the last row is merged or the reader is gone.
    * `consumed` is the sum of the positions throughout.
    */
  method StreamQuery(lens: seq<nat>, turn: Option<seq<nat>>, offset: nat, limit: Option<nat>, totalSize: bool,
                     worlds: nat -> World, taken: nat -> bool)
    returns (pages: seq<Page>)
    requires ListsRuns(turn, |lens|)
    ensures QueryFor(lens, turn, offset, limit, totalSize).Ok() && Within(lens, Outset(|lens|))
    ensures pages == Stream(QueryFor(lens, turn, offset, limit, totalSize), worlds, taken, 0, Outset(|lens|))
  {
    hide PageOf, PosAfter, Sum, Stream, Within;
    WithinOutset(lens);
    var total := Total(lens);
    var start := if offset < total then offset else total;
    var end := if limit.None? then total else if start + limit.value < total then start + limit.value else total;
    var q := Query(lens, turn, start, end, totalSize);
    assert q == QueryFor(lens, turn, offset, limit, totalSize) && q.Ok();
    var pos, consumed, k := Outset(|lens|), 0, 0;
    SumOutset(|lens|);
    pages := [];
    ghost var all := Stream(q, worlds, taken, 0, pos);
    while true
      invariant Within(lens, pos) && consumed == Sum(pos)
      invariant all == pages + Stream(q, worlds, taken, k, pos)
      decreases Sum(lens) - Sum(pos)
    {
      PosAfterMoves(q, worlds(k), pos);
      StreamTurn(q, worlds, taken, k, pos);
      var page, next, eaten := BuildPage(q, worlds(k), pos, consumed);
      pages := pages + [page];
      if !taken(k) || !page.more {
        return;
      }
      pos, consumed, k := next, eaten, k + 1;
    }
  }

  method Total(lens: seq<nat>) returns (n: nat)
    ensures n == Sum(lens)
  {
    n := 0;
    var r := 0;
    while r < |lens|
      invariant 0 <= r <= |lens| && n == Sum(lens[..r])
    {
      assert lens[..r + 1][..r] == lens[..r];
      n := n + lens[r];
      r := r + 1;
    }
    assert lens[..r] == lens;
  }
}
