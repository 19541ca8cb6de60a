/**
  * The k-way merge of per-volume runs. A run is known by its length, a row by its run and
  * its index in it; what a row is, whether it still exists and how two rows compare is read
  * from the indexes under the guards of one page.
  */
module Merge {
  import opened Options

  datatype Row = Row(run: nat, at: nat)

  /** What the guards of one page say of the rows. */
  datatype World = World(
    /** The row's entry still is the file it was found as. */
    valid: Row -> bool,
    /** The first row sorts strictly before the second. */
    less: (Row, Row) -> bool,
    /** The row's parent path can be shown. */
    presentable: Row -> bool,
    /** The bytes the row takes in a page. */
    size: Row -> nat)

  // -- positions ----------------------------------------------------------------------------

  function Sum(s: seq<nat>): nat {
    if s == [] then 0 else Sum(s[..|s| - 1]) + s[|s| - 1]
  }

  /** One position per run, none past the end of its run. */
  predicate Within(lens: seq<nat>, pos: seq<nat>) {
    |pos| == |lens| && forall r :: 0 <= r < |lens| ==> pos[r] <= lens[r]
  }

  lemma {:induction false} SumUpdate(s: seq<nat>, r: nat, x: nat)
    requires r < |s|
    ensures Sum(s[r := x]) == Sum(s) - s[r] + x
    decreases |s|
  {
    var last := |s| - 1;
    if r == last {
      assert s[r := x][..last] == s[..last];
    } else {
      SumUpdate(s[..last], r, x);
      assert s[r := x][..last] == s[..last][r := x];
    }
  }

  lemma {:induction false} SumMonotone(s: seq<nat>, t: seq<nat>)
    requires |s| == |t| && forall r :: 0 <= r < |s| ==> s[r] <= t[r]
    ensures Sum(s) <= Sum(t)
    ensures Sum(s) == Sum(t) ==> s == t
    decreases |s|
  {
    if s != [] {
      SumMonotone(s[..|s| - 1], t[..|t| - 1]);
      assert s == s[..|s| - 1] + [s[|s| - 1]] && t == t[..|t| - 1] + [t[|t| - 1]];
    }
  }

  function Outset(n: nat): (z: seq<nat>)
    ensures |z| == n && forall r :: 0 <= r < n ==> z[r] == 0
  {
    seq(n, _ => 0)
  }

  lemma {:induction false} SumOutset(n: nat)
    ensures Sum(Outset(n)) == 0
  {
    if n > 0 {
      SumOutset(n - 1);
      assert Outset(n)[..n - 1] == Outset(n - 1);
    }
  }

  // -- picking a head ------------------------------------------------------------------------

  /** The first position of run `r` at or after `p` whose row is still valid, or the run's end. */
  function SkipRun(w: World, r: nat, len: nat, p: nat): (q: nat)
    requires p <= len
    ensures p <= q <= len
    ensures q < len ==> w.valid(Row(r, q))
    ensures forall i :: p <= i < q ==> !w.valid(Row(r, i))
    decreases len - p
  {
    if p == len || w.valid(Row(r, p)) then p else SkipRun(w, r, len, p + 1)
  }

  /** Every run stepped past its stale heads. */
  function Skip(w: World, lens: seq<nat>, pos: seq<nat>): (pos': seq<nat>)
    requires Within(lens, pos)
    ensures Within(lens, pos') && |pos'| == |pos|
    ensures forall r :: 0 <= r < |pos| ==> pos'[r] == SkipRun(w, r, lens[r], pos[r])
  {
    seq(|pos|, r requires 0 <= r < |pos| => SkipRun(w, r, lens[r], pos[r]))
  }

  /** Run `r` has a head. */
  predicate HasHead(lens: seq<nat>, pos: seq<nat>, r: nat) {
    r < |lens| == |pos| && pos[r] < lens[r]
  }

  /** The earliest of the first `n` runs no other of them comes before. */
  function Best(w: World, lens: seq<nat>, pos: seq<nat>, n: nat): (best: Option<nat>)
    requires Within(lens, pos) && n <= |lens|
    ensures best.Some? ==> best.value < n && HasHead(lens, pos, best.value)
    ensures best.None? <==> forall r :: 0 <= r < n ==> !HasHead(lens, pos, r)
  {
    if n == 0 then None else
    var best := Best(w, lens, pos, n - 1);
    if !HasHead(lens, pos, n - 1) then best
    else if best.None? || w.less(Row(n - 1, pos[n - 1]), Row(best.value, pos[best.value])) then Some(n - 1)
    else best
  }

  /** The first run of `turn` from index `k` on that has a head. */
  function FirstInTurn(turn: seq<nat>, lens: seq<nat>, pos: seq<nat>, k: nat): (first: Option<nat>)
    requires k <= |turn|
    ensures first.Some? ==> HasHead(lens, pos, first.value)
    ensures first.None? ==> forall i :: k <= i < |turn| ==> !HasHead(lens, pos, turn[i])
    decreases |turn| - k
  {
    if k == |turn| then None
    else if HasHead(lens, pos, turn[k]) then Some(turn[k])
    else FirstInTurn(turn, lens, pos, k + 1)
  }

  /** Every run is listed. */
  ghost predicate ListsRuns(turn: Option<seq<nat>>, n: nat) {
    turn.Some? ==> forall r {:trigger r in turn.value} :: 0 <= r < n ==> r in turn.value
  }

  /** The run whose head is taken next. */
  function Pick(w: World, turn: Option<seq<nat>>, lens: seq<nat>, pos: seq<nat>): (ri: Option<nat>)
    requires Within(lens, pos)
    ensures ri.Some? ==> HasHead(lens, pos, ri.value)
  {
    if turn.Some? then FirstInTurn(turn.value, lens, pos, 0) else Best(w, lens, pos, |lens|)
  }

  /** No head is found only when every run is used up. */
  lemma PickNone(w: World, turn: Option<seq<nat>>, lens: seq<nat>, pos: seq<nat>)
    requires Within(lens, pos) && ListsRuns(turn, |lens|)
    ensures Pick(w, turn, lens, pos) == None <==> pos == lens
  {
    if Pick(w, turn, lens, pos) == None {
      forall r | 0 <= r < |lens| ensures pos[r] == lens[r] {
        if turn.Some? {
          assert r in turn.value;
        }
        assert !HasHead(lens, pos, r);
      }
    }
  }

  /** Steps every run past heads that are gone, counting them as consumed. */
  method SkipStale(w: World, lens: seq<nat>, pos: seq<nat>, consumed: nat) returns (pos': seq<nat>, consumed': nat)
    requires Within(lens, pos) && consumed == Sum(pos)
    ensures pos' == Skip(w, lens, pos) && consumed' == Sum(pos')
  {
    pos', consumed' := pos, consumed;
    var ri := 0;
    while ri < |lens|
      invariant 0 <= ri <= |lens| && Within(lens, pos') && consumed' == Sum(pos')
      invariant forall r :: 0 <= r < ri ==> pos'[r] == SkipRun(w, r, lens[r], pos[r])
      invariant forall r :: ri <= r < |lens| ==> pos'[r] == pos[r]
    {
      var p := pos[ri];
      while p < lens[ri] && !w.valid(Row(ri, p))
        invariant pos[ri] <= p <= lens[ri] && consumed' == Sum(pos') + p - pos[ri]
        invariant SkipRun(w, ri, lens[ri], p) == SkipRun(w, ri, lens[ri], pos[ri])
      {
        p := p + 1;
        consumed' := consumed' + 1;
      }
      SumUpdate(pos', ri, p);
      pos' := pos'[ri := p];
      ri := ri + 1;
    }
  }

  /** The first run in turn that has a head. */
  method HeadInTurn(turn: seq<nat>, lens: seq<nat>, pos: seq<nat>) returns (best: Option<nat>)
    ensures best == FirstInTurn(turn, lens, pos, 0)
  {
    var k := 0;
    while k < |turn|
      invariant 0 <= k <= |turn|
      invariant FirstInTurn(turn, lens, pos, 0) == FirstInTurn(turn, lens, pos, k)
    {
      if HasHead(lens, pos, turn[k]) {
        return Some(turn[k]);
      }
      k := k + 1;
    }
    return None;
  }

  /** The run whose head comes first, the earlier of two that tie. */
  method BestHead(w: World, lens: seq<nat>, pos: seq<nat>) returns (best: Option<nat>)
    requires Within(lens, pos)
    ensures best == Best(w, lens, pos, |lens|)
  {
    best := None;
    var ri := 0;
    while ri < |lens|
      invariant 0 <= ri <= |lens| && best == Best(w, lens, pos, ri)
    {
      if pos[ri] < lens[ri] {
        if best.None? || w.less(Row(ri, pos[ri]), Row(best.value, pos[best.value])) {
          best := Some(ri);
        }
      }
      ri := ri + 1;
    }
  }

  /** Skips stale heads and finds the run to take from. */
  method NextHead(w: World, turn: Option<seq<nat>>, lens: seq<nat>, pos: seq<nat>, consumed: nat)
    returns (pos': seq<nat>, consumed': nat, best: Option<nat>)
    requires Within(lens, pos) && consumed == Sum(pos)
    ensures pos' == Skip(w, lens, pos) && consumed' == Sum(pos')
    ensures best == Pick(w, turn, lens, pos')
  {
    pos', consumed' := SkipStale(w, lens, pos, consumed);
    if turn.Some? {
      best := HeadInTurn(turn.value, lens, pos');
    } else {
      best := BestHead(w, lens, pos');
    }
  }

  // -- the stable merge ------------------------------------------------------------------------

  type Order = (Row, Row) -> bool

  /** `le` orders all rows, ties allowed. */
  ghost predicate TotalPreorder(le: Order) {
    && (forall a, b :: le(a, b) || le(b, a))
    && (forall a, b, c :: le(a, b) && le(b, c) ==> le(a, c))
  }

  /** Each run is in order. */
  ghost predicate SortedRuns(le: Order, lens: seq<nat>) {
    forall r, i, j :: 0 <= r < |lens| && 0 <= i <= j < lens[r] ==> le(Row(r, i), Row(r, j))
  }

  /** Where a stable merge puts `a` and `b`: by the order, ties by run, then by index. */
  predicate Precedes(le: Order, a: Row, b: Row) {
    le(a, b) && (le(b, a) ==> a.run < b.run || (a.run == b.run && a.at < b.at))
  }

  /** The row is in the runs, at or after the positions. */
  predicate Remains(lens: seq<nat>, pos: seq<nat>, row: Row)
    requires |lens| == |pos|
  {
    row.run < |lens| && pos[row.run] <= row.at < lens[row.run]
  }

  ghost predicate AllRemain(lens: seq<nat>, pos: seq<nat>, rows: seq<Row>)
    requires |lens| == |pos|
  {
    forall i :: 0 <= i < |rows| ==> Remains(lens, pos, rows[i])
  }

  /** The rows come in the order of a stable merge, so no row comes twice. */
  ghost predicate InOrder(le: Order, rows: seq<Row>) {
    forall i, j :: 0 <= i < j < |rows| ==> Precedes(le, rows[i], rows[j])
  }

  /** `out` lists every row of the runs exactly once, in the order of a stable merge. */
  ghost predicate StableMerge(le: Order, lens: seq<nat>, out: seq<Row>) {
    && |out| == Sum(lens)
    && AllRemain(lens, Outset(|lens|), out)
    && (forall r, i {:trigger Row(r, i)} :: 0 <= r < |lens| && 0 <= i < lens[r] ==> Row(r, i) in out)
    && InOrder(le, out)
  }

  /** Nothing is stale and rows compare by `le`. */
  ghost predicate Settled(w: World, le: Order) {
    && (forall a :: w.valid(a))
    && (forall a, b :: w.less(a, b) == !le(b, a))
  }

  /** The positions once the head of the picked run is taken. */
  function Advance(pos: seq<nat>, r: nat): seq<nat>
    requires r < |pos|
  {
    pos[r := pos[r] + 1]
  }

  /** The rows `k` takes give, heads compared by `less`. */
  function Greedy(w: World, lens: seq<nat>, pos: seq<nat>, k: nat): (rows: seq<Row>)
    requires Within(lens, pos)
    ensures |rows| <= k
    decreases k
  {
    var best := Best(w, lens, pos, |lens|);
    if k == 0 || best.None? then [] else
    [Row(best.value, pos[best.value])] + Greedy(w, lens, Advance(pos, best.value), k - 1)
  }

  /** The picked head precedes every other row that remains. */
  lemma {:induction false} BestPrecedes(w: World, le: Order, lens: seq<nat>, pos: seq<nat>, n: nat, row: Row)
    requires TotalPreorder(le) && Settled(w, le) && SortedRuns(le, lens) && Within(lens, pos) && n <= |lens|
    requires Remains(lens, pos, row) && row.run < n
    ensures var best := Best(w, lens, pos, n);
            best.Some? && var head := Row(best.value, pos[best.value]); head == row || Precedes(le, head, row)
    decreases n
  {
    var best := Best(w, lens, pos, n);
    if row.run < n - 1 {
      BestPrecedes(w, le, lens, pos, n - 1, row);
    } else {
      var own := Row(row.run, pos[row.run]);
      assert HasHead(lens, pos, n - 1);
      assert le(own, row);
      var before := Best(w, lens, pos, n - 1);
      if before.Some? && best == before {
        var head := Row(before.value, pos[before.value]);
        assert le(head, own);
      }
    }
  }

  lemma {:induction false} GreedyPrecedes(w: World, le: Order, lens: seq<nat>, pos: seq<nat>, k: nat)
    requires TotalPreorder(le) && Settled(w, le) && SortedRuns(le, lens) && Within(lens, pos)
    ensures AllRemain(lens, pos, Greedy(w, lens, pos, k)) && InOrder(le, Greedy(w, lens, pos, k))
    decreases k
  {
    var rows := Greedy(w, lens, pos, k);
    var best := Best(w, lens, pos, |lens|);
    if k > 0 && best.Some? {
      var pos' := Advance(pos, best.value);
      var rest := Greedy(w, lens, pos', k - 1);
      GreedyPrecedes(w, le, lens, pos', k - 1);
      forall i | 0 <= i < |rest| ensures Remains(lens, pos, rest[i]) && Precedes(le, rows[0], rest[i]) {
        assert Remains(lens, pos', rest[i]);
        BestPrecedes(w, le, lens, pos, |lens|, rest[i]);
      }
      forall i, j | 0 <= i < j < |rows| ensures Precedes(le, rows[i], rows[j]) {
        assert rows[j] == rest[j - 1];
        if i > 0 { assert rows[i] == rest[i - 1]; }
      }
    }
  }

  /** Without a head every run is used up; with one, taking it uses up one row. */
  lemma SumStep(w: World, lens: seq<nat>, pos: seq<nat>)
    requires Within(lens, pos)
    ensures Sum(pos) <= Sum(lens)
    ensures Best(w, lens, pos, |lens|).None? ==> pos == lens
    ensures Best(w, lens, pos, |lens|).Some? ==>
              var next := Advance(pos, Best(w, lens, pos, |lens|).value);
              Within(lens, next) && Sum(next) == Sum(pos) + 1 <= Sum(lens)
  {
    var best := Best(w, lens, pos, |lens|);
    SumMonotone(pos, lens);
    if best.None? {
      forall r | 0 <= r < |lens| ensures pos[r] == lens[r] {
        assert !HasHead(lens, pos, r);
      }
      assert pos == lens;
    } else {
      SumUpdate(pos, best.value, pos[best.value] + 1);
      SumMonotone(Advance(pos, best.value), lens);
    }
  }

  /** Taking is possible while rows remain. */
  lemma {:induction false} GreedyLength(w: World, lens: seq<nat>, pos: seq<nat>, k: nat)
    requires Within(lens, pos)
    ensures Sum(pos) <= Sum(lens)
    ensures |Greedy(w, lens, pos, k)| == if k < Sum(lens) - Sum(pos) then k else Sum(lens) - Sum(pos)
    decreases k
  {
    SumStep(w, lens, pos);
    var best := Best(w, lens, pos, |lens|);
    if best.Some? && k > 0 {
      GreedyLength(w, lens, Advance(pos, best.value), k - 1);
    }
  }

  /** Every row that remains gets its turn. */
  lemma {:induction false} GreedyCovers(w: World, lens: seq<nat>, pos: seq<nat>, k: nat, row: Row)
    requires Within(lens, pos) && k >= Sum(lens) - Sum(pos) && Remains(lens, pos, row)
    ensures row in Greedy(w, lens, pos, k)
    decreases k
  {
    SumStep(w, lens, pos);
    assert HasHead(lens, pos, row.run);
    var best := Best(w, lens, pos, |lens|);
    var pos' := Advance(pos, best.value);
    if row != Row(best.value, pos[best.value]) {
      assert Remains(lens, pos', row);
      GreedyCovers(w, lens, pos', k - 1, row);
    }
  }

  /** Taking heads until none is left is the stable merge of the runs. */
  lemma GreedyIsStableMerge(w: World, le: Order, lens: seq<nat>)
    requires TotalPreorder(le) && Settled(w, le) && SortedRuns(le, lens)
    ensures Within(lens, Outset(|lens|))
    ensures StableMerge(le, lens, Greedy(w, lens, Outset(|lens|), Sum(lens)))
  {
    var zeros := Outset(|lens|);
    SumOutset(|lens|);
    GreedyPrecedes(w, le, lens, zeros, Sum(lens));
    GreedyLength(w, lens, zeros, Sum(lens));
    forall r, i | 0 <= r < |lens| && 0 <= i < lens[r] ensures Row(r, i) in Greedy(w, lens, zeros, Sum(lens)) {
      GreedyCovers(w, lens, zeros, Sum(lens), Row(r, i));
    }
  }

  lemma PrecedesStrict(le: Order, a: Row, b: Row)
    requires TotalPreorder(le)
    ensures Precedes(le, a, b) || a == b || Precedes(le, b, a)
    ensures !(Precedes(le, a, b) && Precedes(le, b, a))
  {
    assert le(a, b) || le(b, a);
  }

  /** The same rows in the order of a stable merge are the same list. */
  lemma {:induction false} InOrderUnique(le: Order, s: seq<Row>, t: seq<Row>)
    requires TotalPreorder(le) && InOrder(le, s) && InOrder(le, t)
    requires forall row :: row in s <==> row in t
    ensures s == t
  {
    assert s != [] ==> s[0] in t;
    assert t != [] ==> t[0] in s;
    if s != [] {
      PrecedesStrict(le, s[0], t[0]);
      forall row ensures row in s[1..] <==> row in t[1..] {
        InOrderTail(le, s, row);
        InOrderTail(le, t, row);
      }
      InOrderUnique(le, s[1..], t[1..]);
      assert s == [s[0]] + s[1..] && t == [t[0]] + t[1..];
    }
  }

  lemma InOrderTail(le: Order, s: seq<Row>, row: Row)
    requires TotalPreorder(le) && InOrder(le, s) && s != []
    ensures row in s[1..] <==> row in s && row != s[0]
  {
    if row in s && row != s[0] {
      var p :| 0 <= p < |s| && s[p] == row;
      assert s[1..][p - 1] == row;
    }
    if row in s[1..] {
      var p :| 0 <= p < |s| - 1 && s[1..][p] == row;
      PrecedesStrict(le, s[0], s[p + 1]);
    }
  }

  /** There is one stable merge of the runs. */
  lemma StableMergeUnique(le: Order, lens: seq<nat>, s: seq<Row>, t: seq<Row>)
    requires TotalPreorder(le) && StableMerge(le, lens, s) && StableMerge(le, lens, t)
    ensures s == t
  {
    forall row ensures row in s <==> row in t {
      RowListed(le, lens, s, row);
      RowListed(le, lens, t, row);
    }
    InOrderUnique(le, s, t);
  }

  lemma RowListed(le: Order, lens: seq<nat>, out: seq<Row>, row: Row)
    requires StableMerge(le, lens, out)
    ensures row in out <==> row.run < |lens| && row.at < lens[row.run]
  {
    if row in out {
      var k :| 0 <= k < |out| && out[k] == row;
      assert Remains(lens, Outset(|lens|), out[k]);
    }
    if row.run < |lens| && row.at < lens[row.run] {
      assert Row(row.run, row.at) in out;
    }
  }

  // -- runs cut short ---------------------------------------------------------------------------

  /** Every run cut to its first `cap` rows. */
  function Cut(lens: seq<nat>, cap: nat): (cut: seq<nat>)
    ensures |cut| == |lens| && forall r :: 0 <= r < |lens| ==> cut[r] == if lens[r] < cap then lens[r] else cap
  {
    seq(|lens|, r requires 0 <= r < |lens| => if lens[r] < cap then lens[r] else cap)
  }

  lemma {:induction false} BestCut(w: World, lens: seq<nat>, cap: nat, pos: seq<nat>, n: nat)
    requires Within(lens, pos) && n <= |lens| && forall r :: 0 <= r < |lens| ==> pos[r] < cap
    ensures Within(Cut(lens, cap), pos) && Best(w, Cut(lens, cap), pos, n) == Best(w, lens, pos, n)
    decreases n
  {
    if n > 0 {
      BestCut(w, lens, cap, pos, n - 1);
    }
  }

  /** As many takes as the cut allows do not see the cut. */
  lemma {:induction false} GreedyCut(w: World, lens: seq<nat>, cap: nat, pos: seq<nat>, k: nat)
    requires Within(lens, pos) && forall r :: 0 <= r < |lens| ==> pos[r] + k <= cap
    ensures Within(Cut(lens, cap), pos) && Greedy(w, Cut(lens, cap), pos, k) == Greedy(w, lens, pos, k)
    decreases k
  {
    if k > 0 {
      BestCut(w, lens, cap, pos, |lens|);
      var best := Best(w, lens, pos, |lens|);
      if best.Some? {
        GreedyCut(w, lens, cap, Advance(pos, best.value), k - 1);
      }
    }
  }

  /** Fewer takes give a prefix. */
  lemma {:induction false} GreedyPrefix(w: World, lens: seq<nat>, pos: seq<nat>, k: nat, n: nat)
    requires Within(lens, pos) && k <= n
    ensures Greedy(w, lens, pos, k) <= Greedy(w, lens, pos, n)
    decreases k
  {
    var best := Best(w, lens, pos, |lens|);
    if k > 0 && best.Some? {
      GreedyPrefix(w, lens, Advance(pos, best.value), k - 1, n - 1);
    }
  }

  lemma {:induction false} SumCut(lens: seq<nat>, cap: nat)
    ensures Sum(Cut(lens, cap)) <= Sum(lens)
    ensures Sum(Cut(lens, cap)) < cap ==> Cut(lens, cap) == lens
  {
    SumMonotone(Cut(lens, cap), lens);
    if Cut(lens, cap) != lens {
      var r :| 0 <= r < |lens| && Cut(lens, cap)[r] != lens[r];
      ElementBelowSum(Cut(lens, cap), r);
    }
  }

  lemma {:induction false} ElementBelowSum(s: seq<nat>, r: nat)
    requires r < |s|
    ensures s[r] <= Sum(s)
    decreases |s|
  {
    if r < |s| - 1 {
      ElementBelowSum(s[..|s| - 1], r);
    }
  }
}
