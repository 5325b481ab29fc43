/** Usage roll-up over the turn ledger: a session is billed for its parentless turns and everything
  * delegated below them, each turn once, whichever session recorded it. */
module UsageAggregate {
  import opened Wrappers

  /** A ledger id, of a turn or of a session. */
  datatype Id = Id(text: string)

  /** One ledger row; the token columns are the family's own report, absent when it made none. */
  datatype Turn = Turn(
    id: Id,
    session: Id,
    parent: Option<Id>,
    completed: bool,
    input: Option<int>,
    output: Option<int>,
    total: Option<int>)

  /** The row id is the table's primary key. */
  ghost predicate Keyed(table: seq<Turn>) {
    forall i, j | 0 <= i < j < |table| :: table[i].id != table[j].id
  }

  // ----- reachability: what the roll-up is for -----

  function RootIds(table: seq<Turn>, session: Id): seq<Id> {
    if table == [] then []
    else
      var last := table[|table| - 1];
      RootIds(table[..|table| - 1], session) + if last.session == session && last.parent.None? then [last.id] else []
  }

  /** A chain of `k` parent links leads from the turn to one of the roots. */
  ghost predicate Chain(table: seq<Turn>, roots: set<Id>, id: Id, k: nat)
    decreases k
  {
    if k == 0 then id in roots
    else exists t <- table :: t.id == id && t.parent.Some? && Chain(table, roots, t.parent.value, k - 1)
  }

  ghost predicate Below(table: seq<Turn>, roots: set<Id>, id: Id) {
    exists k: nat :: Chain(table, roots, id, k)
  }

  ghost function BelowSet(table: seq<Turn>, roots: set<Id>): set<Id> {
    set t | t in table && Below(table, roots, t.id) :: t.id
  }

  ghost function Roots(table: seq<Turn>, session: Id): set<Id> {
    set t | t in table && t.session == session && t.parent.None? :: t.id
  }

  /** The turns with a parentless ancestor-or-self, of any session. */
  ghost function Grounded(table: seq<Turn>): set<Id> {
    BelowSet(table, set t | t in table && t.parent.None? :: t.id)
  }

  lemma {:induction false} RootIdsExact(table: seq<Turn>, session: Id)
    ensures forall id :: id in RootIds(table, session) <==> id in Roots(table, session)
    ensures Keyed(table) ==> Distinct(RootIds(table, session))
  {
    if table != [] {
      var before, last := table[..|table| - 1], table[|table| - 1];
      RootIdsExact(before, session);
      assert table == before + [last];
      assert Roots(table, session)
          == Roots(before, session) + (if last.session == session && last.parent.None? then {last.id} else {}) by {
        assert forall t :: t in table <==> t in before || t == last;
      }
      if Keyed(table) {
        forall id <- RootIds(before, session) ensures id != last.id {
          assert id in Roots(before, session);
          var k :| 0 <= k < |before| && before[k].id == id;
          assert table[k].id != table[|table| - 1].id;
        }
      }
    }
  }

  lemma ChainStep(table: seq<Turn>, roots: set<Id>, t: Turn)
    requires t in table && t.parent.Some? && Below(table, roots, t.parent.value)
    ensures Below(table, roots, t.id)
  {
    var k: nat :| Chain(table, roots, t.parent.value, k);
    assert Chain(table, roots, t.id, k + 1);
  }

  ghost predicate Closed(table: seq<Turn>, ids: set<Id>) {
    forall t <- table :: t.parent.Some? && t.parent.value in ids ==> t.id in ids
  }

  lemma {:induction false} ClosedHoldsChains(table: seq<Turn>, roots: set<Id>, ids: set<Id>, id: Id, k: nat)
    requires roots <= ids && Closed(table, ids) && Chain(table, roots, id, k)
    ensures id in ids
    decreases k
  {
    if k > 0 {
      var t :| t in table && t.id == id && t.parent.Some? && Chain(table, roots, t.parent.value, k - 1);
      ClosedHoldsChains(table, roots, ids, t.parent.value, k - 1);
    }
  }

  // ----- sums -----

  /** `reported` and `unknown` turns, and the token sums of the reported ones. */
  datatype Tally = Tally(reported: nat, unknown: nat, input: int, output: int, total: int)

  function Plus(a: Tally, b: Tally): Tally {
    Tally(a.reported + b.reported, a.unknown + b.unknown, a.input + b.input, a.output + b.output, a.total + b.total)
  }

  function OrZero(n: Option<int>): int {
    if n.Some? then n.value else 0
  }

  /** A completed turn counts once: reported if its family gave an input count, unknown otherwise. */
  function Count(t: Turn): Tally {
    if !t.completed then Tally(0, 0, 0, 0, 0)
    else if t.input.None? then Tally(0, 1, 0, 0, 0)
    else Tally(1, 0, t.input.value, OrZero(t.output), OrZero(t.total))
  }

  /** The tally of the rows whose ids are in the set, each row once. */
  ghost function TallyOf(table: seq<Turn>, ids: set<Id>): Tally {
    if table == [] then Tally(0, 0, 0, 0, 0)
    else
      var last := table[|table| - 1];
      var before := TallyOf(table[..|table| - 1], ids);
      if last.id in ids then Plus(before, Count(last)) else before
  }

  lemma {:induction false} TallyDisjoint(table: seq<Turn>, a: set<Id>, b: set<Id>)
    requires a !! b
    ensures TallyOf(table, a + b) == Plus(TallyOf(table, a), TallyOf(table, b))
  {
    if table != [] {
      var before, last := table[..|table| - 1], table[|table| - 1];
      TallyDisjoint(before, a, b);
      assert TallyOf(table, a + b)
          == if last.id in a || last.id in b then Plus(TallyOf(before, a + b), Count(last)) else TallyOf(before, a + b);
    }
  }

  lemma {:induction false} TallyAbsent(table: seq<Turn>, id: Id)
    requires forall t <- table :: t.id != id
    ensures TallyOf(table, {id}) == Tally(0, 0, 0, 0, 0)
  {
    if table != [] { TallyAbsent(table[..|table| - 1], id); }
  }

  lemma {:induction false} TallyOne(table: seq<Turn>, t: Turn)
    requires Keyed(table) && t in table
    ensures TallyOf(table, {t.id}) == Count(t)
  {
    var before, last := table[..|table| - 1], table[|table| - 1];
    assert table == before + [last];
    assert TallyOf(table, {t.id})
        == if last.id == t.id then Plus(TallyOf(before, {t.id}), Count(last)) else TallyOf(before, {t.id});
    if t == last {
      forall s <- before ensures s.id != t.id {
        var i :| 0 <= i < |before| && before[i] == s;
        assert table[i].id != table[|table| - 1].id;
      }
      TallyAbsent(before, t.id);
    } else {
      TallyOne(before, t);
      var i :| 0 <= i < |before| && before[i] == t;
      assert table[i].id != table[|table| - 1].id;
    }
  }

  // ----- the breadth-first walk -----

  ghost function Elements(s: seq<Id>): set<Id> {
    set x | x in s
  }

  ghost predicate Distinct(s: seq<Id>) {
    forall i, j | 0 <= i < j < |s| :: s[i] != s[j]
  }

  method FetchCompleted(table: seq<Turn>, id: Id) returns (row: Option<Turn>)
    requires Keyed(table)
    ensures row.Some? ==> row.value in table && row.value.id == id && row.value.completed
    ensures row.None? ==> forall t <- table :: t.id == id ==> !t.completed
  {
    row := None;
    for i := 0 to |table|
      invariant row.Some? ==> row.value in table && row.value.id == id && row.value.completed
      invariant row.None? ==> forall k | 0 <= k < i :: table[k].id == id ==> !table[k].completed
    {
      if table[i].id == id && table[i].completed { row := Some(table[i]); }
    }
  }

  lemma FetchedTally(table: seq<Turn>, id: Id, row: Option<Turn>)
    requires Keyed(table)
    requires row.Some? ==> row.value in table && row.value.id == id && row.value.completed
    requires row.None? ==> forall t <- table :: t.id == id ==> !t.completed
    ensures TallyOf(table, {id}) == if row.Some? then Count(row.value) else Tally(0, 0, 0, 0, 0)
  {
    if row.Some? {
      TallyOne(table, row.value);
    } else if t :| t in table && t.id == id {
      TallyOne(table, t);
    } else {
      TallyAbsent(table, id);
    }
  }

  /** The running accumulators of the walk, read off the collected rows. */
  function Totals(rows: seq<Turn>, unknown: nat): Tally {
    if rows == [] then Tally(0, unknown, 0, 0, 0)
    else
      var last := rows[|rows| - 1];
      Plus(Totals(rows[..|rows| - 1], unknown),
           Tally(1, 0, OrZero(last.input), OrZero(last.output), OrZero(last.total)))
  }

  lemma {:induction false} TotalsUnknown(rows: seq<Turn>, unknown: nat)
    ensures Totals(rows, unknown + 1) == Plus(Totals(rows, unknown), Tally(0, 1, 0, 0, 0))
  {
    if rows != [] { TotalsUnknown(rows[..|rows| - 1], unknown); }
  }

  lemma {:induction false} TotalsCounts(rows: seq<Turn>, unknown: nat)
    ensures Totals(rows, unknown).reported == |rows| && Totals(rows, unknown).unknown == unknown
  {
    if rows != [] { TotalsCounts(rows[..|rows| - 1], unknown); }
  }

  predicate Reported(t: Turn) {
    t.completed && t.input.Some?
  }

  /** The rows are the completed and reported turns among the ids, each once. */
  ghost predicate RowsOf(table: seq<Turn>, rows: seq<Turn>, ids: set<Id>) {
    Keyed(rows) && forall t :: t in rows <==> t in table && t.id in ids && Reported(t)
  }

  lemma RowsOneMore(table: seq<Turn>, rows: seq<Turn>, ids: set<Id>, id: Id, row: Option<Turn>)
    requires Keyed(table) && RowsOf(table, rows, ids) && id !in ids
    requires row.Some? ==> row.value in table && row.value.id == id && row.value.completed
    requires row.None? ==> forall t <- table :: t.id == id ==> !t.completed
    ensures RowsOf(table, if row.Some? && row.value.input.Some? then rows + [row.value] else rows, ids + {id})
  {
    if row.Some? {
      forall t <- table ensures t.id == id ==> t == row.value { if t.id == id { KeyedUnique(table, t, row.value); } }
      forall i | 0 <= i < |rows| ensures rows[i].id != id { assert rows[i] in rows; }
    }
  }

  lemma TotalsOneMore(rows: seq<Turn>, unknown: nat, t: Turn)
    ensures Totals(rows + [t], unknown) ==
            Plus(Totals(rows, unknown), Tally(1, 0, OrZero(t.input), OrZero(t.output), OrZero(t.total)))
  {
    assert (rows + [t])[..|rows|] == rows;
  }

  lemma FrontierOneMore(frontier: seq<Id>, done: set<Id>, i: nat)
    requires i < |frontier| && Distinct(frontier) && Elements(frontier) !! done
    ensures frontier[i] !in done + Elements(frontier[..i])
    ensures done + Elements(frontier[..i + 1]) == done + Elements(frontier[..i]) + {frontier[i]}
  {
    assert frontier[i] in Elements(frontier);
    assert Elements(frontier[..i + 1]) == Elements(frontier[..i]) + {frontier[i]};
  }

  /** One level: the completed rows of the frontier. */
  method CollectLevel(table: seq<Turn>, frontier: seq<Id>, rows0: seq<Turn>, unknown0: nat, ghost done: set<Id>)
    returns (rows: seq<Turn>, unknown: nat)
    requires Keyed(table) && Distinct(frontier) && Elements(frontier) !! done
    requires Totals(rows0, unknown0) == TallyOf(table, done) && RowsOf(table, rows0, done)
    ensures Totals(rows, unknown) == TallyOf(table, done + Elements(frontier))
    ensures RowsOf(table, rows, done + Elements(frontier))
  {
    rows, unknown := rows0, unknown0;
    assert Elements(frontier[..0]) == {} && done + {} == done;
    for i := 0 to |frontier|
      invariant Totals(rows, unknown) == TallyOf(table, done + Elements(frontier[..i]))
      invariant RowsOf(table, rows, done + Elements(frontier[..i]))
    {
      var row := FetchCompleted(table, frontier[i]);
      ghost var seen := done + Elements(frontier[..i]);
      FrontierOneMore(frontier, done, i);
      FetchedTally(table, frontier[i], row);
      TallyDisjoint(table, seen, {frontier[i]});
      RowsOneMore(table, rows, seen, frontier[i], row);
      if row.Some? {
        if row.value.input.None? {
          TotalsUnknown(rows, unknown);
          unknown := unknown + 1;
        } else {
          TotalsOneMore(rows, unknown, row.value);
          rows := rows + [row.value];
        }
      }
    }
    assert frontier[..|frontier|] == frontier;
  }

  /** The next level: children of the frontier not seen before, marked seen as they are found. */
  method NextLevel(table: seq<Turn>, frontier: seq<Id>, seen0: set<Id>) returns (children: seq<Id>, seen: set<Id>)
    ensures Distinct(children) && Elements(children) !! seen0 && seen == seen0 + Elements(children)
    ensures forall c <- children :: exists t <- table :: t.id == c && t.parent.Some? && t.parent.value in frontier
    ensures forall t <- table :: t.parent.Some? && t.parent.value in frontier ==> t.id in seen
  {
    children, seen := [], seen0;
    for i := 0 to |frontier|
      invariant Distinct(children) && Elements(children) !! seen0 && seen == seen0 + Elements(children)
      invariant forall c <- children :: exists t <- table :: t.id == c && t.parent.Some? && t.parent.value in frontier
      invariant forall t <- table :: t.parent.Some? && t.parent.value in frontier[..i] ==> t.id in seen
    {
      for j := 0 to |table|
        invariant Distinct(children) && Elements(children) !! seen0 && seen == seen0 + Elements(children)
        invariant forall c <- children :: exists t <- table :: t.id == c && t.parent.Some? && t.parent.value in frontier
        invariant forall t <- table :: t.parent.Some? && t.parent.value in frontier[..i] ==> t.id in seen
        invariant forall k | 0 <= k < j :: table[k].parent == Some(frontier[i]) ==> table[k].id in seen
      {
        if table[j].parent == Some(frontier[i]) && table[j].id !in seen {
          assert Elements(children + [table[j].id]) == Elements(children) + {table[j].id};
          seen := seen + {table[j].id};
          children := children + [table[j].id];
        }
      }
      assert frontier[..i + 1] == frontier[..i] + [frontier[i]];
    }
    assert frontier[..|frontier|] == frontier;
  }

  /** The walk ends, visits exactly the turns below the roots, and collects exactly the reported ones, each once. */
  method SubtreeUsage(table: seq<Turn>, rootIds: seq<Id>)
    returns (rows: seq<Turn>, unknown: nat, ghost visited: set<Id>)
    requires Keyed(table) && Distinct(rootIds) && forall id <- rootIds :: exists t <- table :: t.id == id
    ensures visited == BelowSet(table, Elements(rootIds))
    ensures Totals(rows, unknown) == TallyOf(table, visited) && RowsOf(table, rows, visited)
  {
    rows, unknown, visited := [], 0, {};
    ghost var roots, all := Elements(rootIds), set t | t in table :: t.id;
    var frontier, seen := rootIds, set id | id in rootIds;
    EmptyTally(table);
    forall id <- roots ensures Below(table, roots, id) { assert Chain(table, roots, id, 0); }
    while frontier != []
      invariant Distinct(frontier) && Elements(frontier) !! visited && seen == visited + Elements(frontier)
      invariant roots <= seen <= all
      invariant forall id <- seen :: Below(table, roots, id)
      invariant forall t <- table :: t.parent.Some? && t.parent.value in visited ==> t.id in seen
      invariant Totals(rows, unknown) == TallyOf(table, visited) && RowsOf(table, rows, visited)
      decreases all - visited
    {
      assert frontier[0] in Elements(frontier);
      rows, unknown := CollectLevel(table, frontier, rows, unknown, visited);
      var children;
      ghost var before := seen;
      children, seen := NextLevel(table, frontier, seen);
      forall c <- children ensures Below(table, roots, c) && c in all {
        var t :| t in table && t.id == c && t.parent.Some? && t.parent.value in frontier;
        assert t.parent.value in before;
        ChainStep(table, roots, t);
      }
      visited := visited + Elements(frontier);
      frontier := children;
    }
    assert Closed(table, visited);
    forall id ensures id in visited <==> id in BelowSet(table, roots) {
      if id in BelowSet(table, roots) {
        var k: nat :| Chain(table, roots, id, k);
        ClosedHoldsChains(table, roots, visited, id, k);
      }
    }
  }

  lemma {:induction false} EmptyTally(table: seq<Turn>)
    ensures TallyOf(table, {}) == Tally(0, 0, 0, 0, 0)
  {
    if table != [] { EmptyTally(table[..|table| - 1]); }
  }

  // ----- one entry a session -----

  /** What a session is billed for. */
  ghost function Billed(table: seq<Turn>, session: Id): Tally {
    TallyOf(table, BelowSet(table, Roots(table, session)))
  }

  /** Sums are shown only when some turn reported; nothing reported reads as unknown, not as zero. */
  datatype SessionUsage = SessionUsage(
    input: Option<int>, output: Option<int>, total: Option<int>, reported: nat, unknown: nat)

  function Shown(t: Tally): SessionUsage {
    if t.reported == 0 then SessionUsage(None, None, None, 0, t.unknown)
    else SessionUsage(Some(t.input), Some(t.output), Some(t.total), t.reported, t.unknown)
  }

  /** How many rows of the set the property holds for. */
  ghost function CountWhere(table: seq<Turn>, ids: set<Id>, holds: Turn -> bool): nat {
    if table == [] then 0
    else
      var last := table[|table| - 1];
      CountWhere(table[..|table| - 1], ids, holds) + if last.id in ids && holds(last) then 1 else 0
  }

  /** The sum of a column over the rows of the set that are completed and reported, an absent value counting as zero. */
  ghost function SumOver(table: seq<Turn>, ids: set<Id>, column: Turn -> Option<int>): int {
    if table == [] then 0
    else
      var last := table[|table| - 1];
      SumOver(table[..|table| - 1], ids, column)
      + if last.id in ids && last.completed && last.input.Some? && column(last).Some? then column(last).value else 0
  }

  /** A session's entry, row by row: completed turns below its roots that have an input count are reported, completed
    * turns without one are unknown, and the sums are those of the reported ones, or unknown when there is none. */
  ghost predicate BillOf(table: seq<Turn>, session: Id, usage: SessionUsage) {
    var ids := BelowSet(table, Roots(table, session));
    && usage.reported == CountWhere(table, ids, (t: Turn) => t.completed && t.input.Some?)
    && usage.unknown == CountWhere(table, ids, (t: Turn) => t.completed && t.input.None?)
    && (usage.reported == 0 ==> usage.input == None && usage.output == None && usage.total == None)
    && (usage.reported > 0 ==>
          && usage.input == Some(SumOver(table, ids, (t: Turn) => t.input))
          && usage.output == Some(SumOver(table, ids, (t: Turn) => t.output))
          && usage.total == Some(SumOver(table, ids, (t: Turn) => t.total)))
  }

  lemma {:induction false} TallySpelledOut(table: seq<Turn>, ids: set<Id>)
    ensures var t := TallyOf(table, ids);
            && t.reported == CountWhere(table, ids, (t: Turn) => t.completed && t.input.Some?)
            && t.unknown == CountWhere(table, ids, (t: Turn) => t.completed && t.input.None?)
            && t.input == SumOver(table, ids, (t: Turn) => t.input)
            && t.output == SumOver(table, ids, (t: Turn) => t.output)
            && t.total == SumOver(table, ids, (t: Turn) => t.total)
  {
    if table != [] { TallySpelledOut(table[..|table| - 1], ids); }
  }

  /** What is shown of a session is its bill. */
  lemma ShownIsTheBill(table: seq<Turn>, session: Id)
    ensures BillOf(table, session, Shown(Billed(table, session)))
  {
    TallySpelledOut(table, BelowSet(table, Roots(table, session)));
  }

  method SumRows(rows: seq<Turn>, ghost unknown: nat) returns (input: int, output: int, total: int)
    ensures var t := Totals(rows, unknown); (input, output, total) == (t.input, t.output, t.total)
  {
    input, output, total := 0, 0, 0;
    for i := 0 to |rows|
      invariant var t := Totals(rows[..i], unknown); (input, output, total) == (t.input, t.output, t.total)
    {
      assert rows[..i + 1][..i] == rows[..i];
      input := input + OrZero(rows[i].input);
      output := output + OrZero(rows[i].output);
      total := total + OrZero(rows[i].total);
    }
    assert rows[..|rows|] == rows;
  }

  method AggregateBySession(table: seq<Turn>, sessions: seq<Id>) returns (result: map<Id, SessionUsage>)
    requires Keyed(table)
    ensures result.Keys == Elements(sessions)
    ensures forall s <- sessions :: result[s] == Shown(Billed(table, s))
    ensures forall s <- sessions :: BillOf(table, s, result[s])
  {
    result := map[];
    for i := 0 to |sessions|
      invariant result.Keys == Elements(sessions[..i])
      invariant forall s <- sessions[..i] :: result[s] == Shown(Billed(table, s))
    {
      var session := sessions[i];
      var rootIds := RootIds(table, session);
      RootIdsExact(table, session);
      assert Elements(rootIds) == Roots(table, session);
      var rows, unknown, visited := SubtreeUsage(table, rootIds);
      TotalsCounts(rows, unknown);
      var input, output, total := SumRows(rows, unknown);
      var usage := if |rows| == 0 then SessionUsage(None, None, None, 0, unknown)
                   else SessionUsage(Some(input), Some(output), Some(total), |rows|, unknown);
      assert sessions[..i + 1] == sessions[..i] + [session];
      result := result[session := usage];
    }
    assert sessions[..|sessions|] == sessions;
    forall s <- sessions ensures BillOf(table, s, result[s]) { ShownIsTheBill(table, s); }
  }

  // ----- conservation -----

  lemma KeyedUnique(table: seq<Turn>, t: Turn, u: Turn)
    requires Keyed(table) && t in table && u in table && t.id == u.id
    ensures t == u
  {
    var i :| 0 <= i < |table| && table[i] == t;
    var j :| 0 <= j < |table| && table[j] == u;
  }

  /** No turn is billed to two sessions: its chain of parents ends in one root. */
  lemma {:induction false} OneRoot(table: seq<Turn>, r: Id, s: Id, id: Id, k: nat, l: nat)
    requires Keyed(table) && Chain(table, Roots(table, r), id, k) && Chain(table, Roots(table, s), id, l)
    ensures r == s
    decreases k
  {
    forall u, v | u in table && v in table && u.id == id && v.id == id ensures u == v { KeyedUnique(table, u, v); }
    if k > 0 && l > 0 {
      var u :| u in table && u.id == id && u.parent.Some? && Chain(table, Roots(table, r), u.parent.value, k - 1);
      OneRoot(table, r, s, u.parent.value, k - 1, l - 1);
    }
  }

  ghost function BilledTo(table: seq<Turn>, sessions: seq<Id>): set<Id> {
    set t, s | t in table && s in sessions && Below(table, Roots(table, s), t.id) :: t.id
  }

  ghost function SumBilled(table: seq<Turn>, sessions: seq<Id>): Tally {
    if sessions == [] then Tally(0, 0, 0, 0, 0)
    else
      var before := SumBilled(table, sessions[..|sessions| - 1]);
      Plus(before, Billed(table, sessions[|sessions| - 1]))
  }

  lemma BilledSplits(table: seq<Turn>, before: seq<Id>, last: Id)
    requires Keyed(table) && last !in before
    ensures BilledTo(table, before + [last]) == BilledTo(table, before) + BelowSet(table, Roots(table, last))
    ensures BilledTo(table, before) !! BelowSet(table, Roots(table, last))
  {
    var a, b := BilledTo(table, before), BelowSet(table, Roots(table, last));
    assert forall s :: s in before + [last] <==> s in before || s == last;
    forall id ensures !(id in a && id in b) {
      if id in a {
        var s :| s in before && Below(table, Roots(table, s), id);
        var k: nat :| Chain(table, Roots(table, s), id, k);
        forall l: nat ensures !Chain(table, Roots(table, last), id, l) {
          if Chain(table, Roots(table, last), id, l) { OneRoot(table, s, last, id, k, l); }
        }
      }
    }
  }

  lemma DistinctInit(s: seq<Id>)
    requires s != [] && Distinct(s)
    ensures Distinct(s[..|s| - 1]) && s[|s| - 1] !in s[..|s| - 1]
    ensures s == s[..|s| - 1] + [s[|s| - 1]]
  {
    var init := s[..|s| - 1];
    assert forall i | 0 <= i < |init| :: init[i] == s[i];
  }

  lemma {:induction false} BilledAddsUp(table: seq<Turn>, sessions: seq<Id>)
    requires Keyed(table) && Distinct(sessions)
    ensures SumBilled(table, sessions) == TallyOf(table, BilledTo(table, sessions))
  {
    if sessions == [] {
      assert BilledTo(table, sessions) == {};
      EmptyTally(table);
    } else {
      var before, last := sessions[..|sessions| - 1], sessions[|sessions| - 1];
      DistinctInit(sessions);
      BilledAddsUp(table, before);
      BilledSplits(table, before, last);
      TallyDisjoint(table, BilledTo(table, before), BelowSet(table, Roots(table, last)));
    }
  }

  lemma {:induction false} ChainHasASession(table: seq<Turn>, id: Id, k: nat)
    requires Chain(table, set t | t in table && t.parent.None? :: t.id, id, k)
    ensures exists t <- table :: Chain(table, Roots(table, t.session), id, k)
    decreases k
  {
    if k == 0 {
      var t :| t in table && t.parent.None? && t.id == id;
      assert Chain(table, Roots(table, t.session), id, 0);
    } else {
      var u :| u in table && u.id == id && u.parent.Some?
               && Chain(table, set t | t in table && t.parent.None? :: t.id, u.parent.value, k - 1);
      ChainHasASession(table, u.parent.value, k - 1);
      var t :| t in table && Chain(table, Roots(table, t.session), u.parent.value, k - 1);
      assert Chain(table, Roots(table, t.session), id, k);
    }
  }

  lemma {:induction false} ChainIsGrounded(table: seq<Turn>, session: Id, id: Id, k: nat)
    requires Chain(table, Roots(table, session), id, k)
    ensures Chain(table, set t | t in table && t.parent.None? :: t.id, id, k)
    decreases k
  {
    if k > 0 {
      var u :| u in table && u.id == id && u.parent.Some? && Chain(table, Roots(table, session), u.parent.value, k - 1);
      ChainIsGrounded(table, session, u.parent.value, k - 1);
    }
  }

  /** Nothing is lost and nothing is counted twice: over all sessions, the reported and unknown
    * counts and every token sum are those of the completed turns with a parentless ancestor-or-self. */
  lemma UsageIsConserved(table: seq<Turn>, sessions: seq<Id>)
    requires Keyed(table) && Distinct(sessions) && forall t <- table :: t.session in sessions
    ensures SumBilled(table, sessions) == TallyOf(table, Grounded(table))
  {
    BilledAddsUp(table, sessions);
    var roots := set t | t in table && t.parent.None? :: t.id;
    forall t | t in table ensures t.id in BilledTo(table, sessions) <==> t.id in Grounded(table) {
      if Below(table, roots, t.id) {
        var k: nat :| Chain(table, roots, t.id, k);
        ChainHasASession(table, t.id, k);
        var u :| u in table && Chain(table, Roots(table, u.session), t.id, k);
        assert Below(table, Roots(table, u.session), t.id);
      }
      if s :| s in sessions && Below(table, Roots(table, s), t.id) {
        var k: nat :| Chain(table, Roots(table, s), t.id, k);
        ChainIsGrounded(table, s, t.id, k);
      }
    }
    assert BilledTo(table, sessions) == Grounded(table);
  }

  lemma {:induction false} ChainsEndAtRoots(table: seq<Turn>, roots: set<Id>, id: Id, k: nat)
    requires Chain(table, roots, id, k)
    requires forall t <- table :: t.parent.Some? ==> t.parent.value !in roots
    ensures id in roots
    decreases k
  {
    if k > 0 {
      var t :| t in table && t.id == id && t.parent.Some? && Chain(table, roots, t.parent.value, k - 1);
      ChainsEndAtRoots(table, roots, t.parent.value, k - 1);
    }
  }

  /** A session whose turns delegate nothing is billed for exactly its own parentless turns, which are all its turns
    * when none of them is a child. */
  lemma NoDelegationMeansOwnTurns(table: seq<Turn>, session: Id)
    requires forall t <- table :: t.parent.Some? ==> t.parent.value !in Roots(table, session)
    ensures Billed(table, session) == TallyOf(table, Roots(table, session))
    ensures (forall t <- table :: t.session == session ==> t.parent.None?) ==>
              Billed(table, session) == TallyOf(table, set t | t in table && t.session == session :: t.id)
  {
    var roots := Roots(table, session);
    forall id ensures id in BelowSet(table, roots) <==> id in roots {
      if id in roots { assert Chain(table, roots, id, 0); }
      if id in BelowSet(table, roots) {
        var k: nat :| Chain(table, roots, id, k);
        ChainsEndAtRoots(table, roots, id, k);
      }
    }
    assert BelowSet(table, roots) == roots;
    if forall t <- table :: t.session == session ==> t.parent.None? {
      assert (set t | t in table && t.session == session :: t.id) == roots;
    }
  }

  /** How many completed rows the set names. */
  ghost function CompletedIn(table: seq<Turn>, ids: set<Id>): nat {
    if table == [] then 0
    else
      var last := table[|table| - 1];
      CompletedIn(table[..|table| - 1], ids) + if last.id in ids && last.completed then 1 else 0
  }

  /** The two counts of a tally are the completed turns, split by whether the family reported. */
  lemma {:induction false} CountsAreCompletedTurns(table: seq<Turn>, ids: set<Id>)
    ensures TallyOf(table, ids).reported + TallyOf(table, ids).unknown == CompletedIn(table, ids)
  {
    if table != [] { CountsAreCompletedTurns(table[..|table| - 1], ids); }
  }
}
