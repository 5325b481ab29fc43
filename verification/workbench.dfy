/** The contribution point a workbench keeps its views in: unique ids, a sorted snapshot, and disposers that
  * only ever remove their own contribution. */
module Contributions {
  import opened Wrappers

  datatype Id = Id(name: string)

  datatype Slot = Left | Right | Bottom | Main | Top | FullPage

  type Region = s: Slot | s != FullPage witness Main

  datatype Presentation = OnPage | InRegion(region: Region)
  datatype View = View(id: Id, presentation: Presentation)

  /** A frozen copy under its object identity. */
  datatype Held = Held(token: nat, view: View)

  datatype Registry = Registry(values: seq<Held>, issued: nat, disposed: bool)

  datatype Error = ScopeClosed | IdRequired | PointDisposed | Duplicate | Closed | Unavailable | InvalidMove

  const WHITE: set<char> :=
    {'\t', '\n', '\U{b}', '\U{c}', '\r', ' ', '\U{a0}', '\U{1680}', '\U{2000}', '\U{2001}', '\U{2002}', '\U{2003}',
     '\U{2004}', '\U{2005}', '\U{2006}', '\U{2007}', '\U{2008}', '\U{2009}', '\U{200a}', '\U{2028}', '\U{2029}',
     '\U{202f}', '\U{205f}', '\U{3000}', '\U{feff}'}

  predicate Blank(id: Id) {
    forall c <- id.name :: c in WHITE
  }

  predicate Has(values: seq<Held>, id: Id) {
    exists h <- values :: h.view.id == id
  }

  predicate UniqueViews(values: seq<Held>) {
    forall i, j | 0 <= i < j < |values| :: values[i].view.id != values[j].view.id
  }

  predicate UniqueIds(views: seq<View>) {
    forall i, j | 0 <= i < j < |views| :: views[i].id != views[j].id
  }

  // ----- the snapshot -----

  /** `rank` is the collation: ids it does not tell apart keep the order they were added in. */
  function Placed(rank: Id -> real, sorted: seq<View>, v: View): seq<View> {
    if sorted == [] || rank(sorted[|sorted| - 1].id) <= rank(v.id) then sorted + [v]
    else Placed(rank, sorted[..|sorted| - 1], v) + [sorted[|sorted| - 1]]
  }

  function Snapshot(rank: Id -> real, values: seq<Held>): seq<View> {
    if values == [] then []
    else Placed(rank, Snapshot(rank, values[..|values| - 1]), values[|values| - 1].view)
  }

  lemma {:induction false} PlacedMembers(rank: Id -> real, sorted: seq<View>, v: View)
    ensures forall x :: x in Placed(rank, sorted, v) <==> x in sorted || x == v
    ensures UniqueIds(sorted) && (forall x <- sorted :: x.id != v.id) ==> UniqueIds(Placed(rank, sorted, v))
  {
    if sorted != [] {
      var init, last := sorted[..|sorted| - 1], sorted[|sorted| - 1];
      assert sorted == init + [last];
      PlacedMembers(rank, init, v);
      if UniqueIds(sorted) && (forall x <- sorted :: x.id != v.id) {
        forall x <- Placed(rank, init, v) ensures x.id != last.id {
          if x != v {
            var i :| 0 <= i < |init| && init[i] == x;
            assert sorted[i].id != sorted[|sorted| - 1].id;
          }
        }
      }
    }
  }

  /** The snapshot shows exactly the registered views, each id once. */
  lemma {:induction false} SnapshotMembers(rank: Id -> real, values: seq<Held>)
    ensures forall v :: v in Snapshot(rank, values) <==> exists h <- values :: h.view == v
    ensures UniqueViews(values) ==> UniqueIds(Snapshot(rank, values))
  {
    if values == [] { return; }
    var init, last := values[..|values| - 1], values[|values| - 1];
    SnapshotMembers(rank, init);
    PlacedMembers(rank, Snapshot(rank, init), last.view);
    assert values == init + [last];
    if UniqueViews(values) {
      forall x <- Snapshot(rank, init) ensures x.id != last.view.id {
        var h :| h in init && h.view == x;
        var i :| 0 <= i < |init| && init[i] == h;
        assert values[i].view.id != values[|values| - 1].view.id;
      }
    }
  }

  ghost predicate Ascending(rank: Id -> real, views: seq<View>) {
    forall i, j | 0 <= i < j < |views| :: rank(views[i].id) <= rank(views[j].id)
  }

  /** The views of one rank, in their order. */
  function Ranked(rank: Id -> real, views: seq<View>, level: real): seq<View> {
    if views == [] then []
    else
      var init, last := Ranked(rank, views[..|views| - 1], level), views[|views| - 1];
      if rank(last.id) == level then init + [last] else init
  }

  /** The contributions of one rank in the order they were added. */
  function Arrived(rank: Id -> real, values: seq<Held>, level: real): seq<View> {
    if values == [] then []
    else
      var init, last := Arrived(rank, values[..|values| - 1], level), values[|values| - 1].view;
      if rank(last.id) == level then init + [last] else init
  }

  lemma RankedOneMore(rank: Id -> real, views: seq<View>, v: View, level: real)
    ensures Ranked(rank, views + [v], level) ==
            Ranked(rank, views, level) + if rank(v.id) == level then [v] else []
  {
    assert (views + [v])[..|views|] == views;
  }

  lemma {:induction false} PlacedAscends(rank: Id -> real, sorted: seq<View>, v: View)
    requires Ascending(rank, sorted)
    ensures Ascending(rank, Placed(rank, sorted, v))
  {
    if sorted != [] && rank(sorted[|sorted| - 1].id) > rank(v.id) {
      var init, last := sorted[..|sorted| - 1], sorted[|sorted| - 1];
      PlacedAscends(rank, init, v);
      PlacedMembers(rank, init, v);
      var front := Placed(rank, init, v);
      forall i | 0 <= i < |front| ensures rank(front[i].id) <= rank(last.id) {
        assert front[i] in front;
        if front[i] != v { var k :| 0 <= k < |init| && init[k] == front[i]; assert sorted[k] == init[k]; }
      }
    }
  }

  /** A new view goes behind those of its rank. */
  lemma {:induction false} PlacedBehindItsRank(rank: Id -> real, sorted: seq<View>, v: View, level: real)
    requires Ascending(rank, sorted)
    ensures Ranked(rank, Placed(rank, sorted, v), level) ==
            Ranked(rank, sorted, level) + if rank(v.id) == level then [v] else []
  {
    if sorted == [] || rank(sorted[|sorted| - 1].id) <= rank(v.id) {
      RankedOneMore(rank, sorted, v, level);
    } else {
      var init, last := sorted[..|sorted| - 1], sorted[|sorted| - 1];
      PlacedBehindItsRank(rank, init, v, level);
      RankedOneMore(rank, Placed(rank, init, v), last, level);
      RankedOneMore(rank, init, last, level);
      assert sorted == init + [last];
    }
  }

  /** The snapshot is in ascending order, and contributions the collation does not tell apart keep the order they were
    * added in. */
  lemma {:induction false} SnapshotIsSorted(rank: Id -> real, values: seq<Held>, level: real)
    ensures Ascending(rank, Snapshot(rank, values))
    ensures Ranked(rank, Snapshot(rank, values), level) == Arrived(rank, values, level)
  {
    if values != [] {
      var init, last := values[..|values| - 1], values[|values| - 1];
      SnapshotIsSorted(rank, init, level);
      PlacedAscends(rank, Snapshot(rank, init), last.view);
      PlacedBehindItsRank(rank, Snapshot(rank, init), last.view, level);
    }
  }

  // ----- operations -----

  /** The checks of the registry in front of the point, then those of the point itself. */
  function AddError(r: Registry, view: View, scopeOpen: bool): Option<Error> {
    if !scopeOpen then Some(ScopeClosed)
    else if Blank(view.id) then Some(IdRequired)
    else if r.disposed then Some(PointDisposed)
    else if Has(r.values, view.id) then Some(Duplicate)
    else None
  }

  function Added(r: Registry, view: View): Registry {
    r.(values := r.values + [Held(r.issued, view)], issued := r.issued + 1)
  }

  predicate IsCurrent(values: seq<Held>, id: Id, token: nat) {
    exists h <- values :: h.view.id == id && h.token == token
  }

  function Without(values: seq<Held>, id: Id): seq<Held> {
    if values == [] then []
    else Without(values[..|values| - 1], id) + if values[|values| - 1].view.id == id then [] else [values[|values| - 1]]
  }

  /** The disposer handed out for `token`. */
  function Released(r: Registry, id: Id, token: nat): Registry {
    if IsCurrent(r.values, id, token) then r.(values := Without(r.values, id)) else r
  }

  function Cleared(r: Registry): Registry {
    if r.disposed then r else r.(values := [], disposed := true)
  }

  ghost predicate UniqueTokens(values: seq<Held>) {
    forall x <- values, y <- values :: x.token == y.token ==> x == y
  }

  ghost predicate RegistryInv(r: Registry) {
    && UniqueViews(r.values) && UniqueTokens(r.values)
    && (forall h <- r.values :: h.token < r.issued && !Blank(h.view.id))
    && (r.disposed ==> r.values == [])
  }

  lemma {:induction false} WithoutMembers(values: seq<Held>, id: Id)
    ensures forall h :: h in Without(values, id) <==> h in values && h.view.id != id
    ensures UniqueViews(values) ==> UniqueViews(Without(values, id))
  {
    if values != [] {
      var init, last := values[..|values| - 1], values[|values| - 1];
      WithoutMembers(init, id);
      assert values == init + [last];
      if UniqueViews(values) {
        forall h <- Without(init, id) ensures h.view.id != last.view.id {
          var i :| 0 <= i < |init| && init[i] == h;
          assert values[i].view.id != values[|values| - 1].view.id;
        }
      }
    }
  }

  lemma AddKeeps(r: Registry, view: View, scopeOpen: bool)
    requires RegistryInv(r) && AddError(r, view, scopeOpen).None?
    ensures RegistryInv(Added(r, view)) && IsCurrent(Added(r, view).values, view.id, r.issued)
    ensures forall h :: h in Added(r, view).values <==> h in r.values || h == Held(r.issued, view)
  {
    assert Held(r.issued, view) in Added(r, view).values;
  }

  lemma ReleaseKeeps(r: Registry, id: Id, token: nat)
    requires RegistryInv(r)
    ensures RegistryInv(Released(r, id, token))
    ensures forall h :: h in Released(r, id, token).values <==> h in r.values && !(h.view.id == id && h.token == token)
  {
    WithoutMembers(r.values, id);
    if IsCurrent(r.values, id, token) {
      forall h <- r.values ensures h.view.id == id ==> h.token == token {
        var g :| g in r.values && g.view.id == id && g.token == token;
        var i :| 0 <= i < |r.values| && r.values[i] == h;
        var j :| 0 <= j < |r.values| && r.values[j] == g;
        assert h.view.id == id ==> i == j;
      }
    }
  }

  lemma ReleaseKeepsInv(r: Registry, id: Id, token: nat)
    requires RegistryInv(r)
    ensures RegistryInv(Released(r, id, token))
  {
    ReleaseKeeps(r, id, token);
  }

  class ContributionPoint {
    const rank: Id -> real
    var values: seq<Held>
    var snapshot: seq<View>
    var issued: nat
    var isDisposed: bool

    ghost function Model(): Registry
      reads this
    {
      Registry(values, issued, isDisposed)
    }

    ghost predicate Valid()
      reads this
    {
      RegistryInv(Model()) && snapshot == Snapshot(rank, values)
    }

    constructor (rank: Id -> real)
      ensures Valid() && Model() == Registry([], 0, false) && this.rank == rank
    {
      this.rank := rank;
      values, snapshot, issued, isDisposed := [], [], 0, false;
    }

    method Add(view: View, scopeOpen: bool) returns (answer: Result<nat, Error>)
      requires Valid()
      modifies this
      ensures Valid()
      ensures match AddError(old(Model()), view, scopeOpen)
              case Some(e) => answer == Err(e) && Model() == old(Model())
              case None => answer == Ok(old(issued)) && Model() == Added(old(Model()), view)
    {
      if !scopeOpen { return Err(ScopeClosed); }
      if Blank(view.id) { return Err(IdRequired); }
      if isDisposed { return Err(PointDisposed); }
      if Has(values, view.id) { return Err(Duplicate); }
      AddKeeps(Model(), view, scopeOpen);
      var token := issued;
      values, issued := values + [Held(token, view)], issued + 1;
      Publish();
      answer := Ok(token);
    }

    method Release(id: Id, token: nat) returns (removed: bool)
      requires Valid()
      modifies this
      ensures Valid() && Model() == Released(old(Model()), id, token)
      ensures removed == IsCurrent(old(values), id, token)
    {
      ReleaseKeepsInv(Model(), id, token);
      removed := IsCurrent(values, id, token);
      if removed {
        values := Without(values, id);
        Publish();
      }
    }

    method Dispose()
      requires Valid()
      modifies this
      ensures Valid() && Model() == Cleared(old(Model()))
    {
      if isDisposed { return; }
      isDisposed := true;
      values := [];
      Publish();
    }

    method Publish()
      modifies this`snapshot
      ensures snapshot == Snapshot(rank, values)
    {
      snapshot := [];
      for i := 0 to |values|
        invariant snapshot == Snapshot(rank, values[..i])
      {
        snapshot := Placed(rank, snapshot, values[i].view);
        assert values[..i + 1][..i] == values[..i];
      }
      assert values[..|values|] == values;
    }
  }
}

/** The workbench's layout: which view each slot shows, where views were moved to and what is collapsed. */
module Workbench {
  import opened Wrappers
  import opened Contributions

  datatype Layout = Layout(selected: map<Slot, Id>, placements: map<Id, Region>, collapsed: map<Slot, bool>)

  const BLANK_LAYOUT := Layout(map[], map[], map[])

  function SlotOf(placements: map<Id, Region>, v: View): Slot {
    match v.presentation
    case OnPage => FullPage
    case InRegion(region) => if v.id in placements then placements[v.id] else region
  }

  function IdsOf(views: seq<View>): set<Id> {
    set v <- views :: v.id
  }

  function FirstView(views: seq<View>, id: Id): (r: Option<View>)
    ensures r.Some? ==> r.value in views && r.value.id == id
    ensures r.None? ==> forall v <- views :: v.id != id
  {
    if views == [] then None else if views[0].id == id then Some(views[0]) else
    assert views == [views[0]] + views[1..];
    FirstView(views[1..], id)
  }

  /** The first view other than `except` that stands in region `from`. */
  function FirstIn(views: seq<View>, placements: map<Id, Region>, from: Slot, except: Id): (r: Option<View>)
    ensures r.Some? ==> r.value in views && r.value.id != except && SlotOf(placements, r.value) == from
    ensures r.Some? ==>
              exists i :: 0 <= i < |views| && views[i] == r.value && NoneIn(views[..i], placements, from, except)
    ensures r.None? ==> NoneIn(views, placements, from, except)
  {
    if views == [] then None
    else if views[0].id != except && SlotOf(placements, views[0]) == from then
      assert NoneIn(views[..0], placements, from, except);
      Some(views[0])
    else
      assert views == [views[0]] + views[1..];
      assert forall i | 0 <= i < |views[1..]| :: views[..i + 1] == [views[0]] + views[1..][..i];
      FirstIn(views[1..], placements, from, except)
  }

  predicate NoneIn(views: seq<View>, placements: map<Id, Region>, from: Slot, except: Id) {
    forall v <- views :: v.id == except || SlotOf(placements, v) != from
  }

  /** `!selected[slot]` of the source: an empty id would count as no selection. */
  predicate Shows(selected: map<Slot, Id>, slot: Slot) {
    slot in selected && selected[slot].name != ""
  }

  function Deselected(selected: map<Slot, Id>, id: Id): map<Slot, Id> {
    map slot <- selected | selected[slot] != id :: selected[slot]
  }

  /** What the subscription does whenever the registered views change. */
  function Filtered(views: seq<View>, l: Layout): Layout {
    l.(selected := map slot <- l.selected | l.selected[slot] in IdsOf(views) :: l.selected[slot],
       placements := map id <- l.placements | id in IdsOf(views) :: l.placements[id])
  }

  function Show(l: Layout, v: View): Layout {
    var target := SlotOf(l.placements, v);
    Layout(l.selected[target := v.id], l.placements,
           if target == FullPage then l.collapsed else l.collapsed[target := false])
  }

  function Opened(views: seq<View>, l: Layout, id: Id): Result<Layout, Error> {
    match FirstView(views, id)
    case None => Err(Unavailable)
    case Some(v) => Ok(Show(l, v))
  }

  function Shift(views: seq<View>, l: Layout, v: View, region: Region): Layout {
    var from := SlotOf(l.placements, v);
    var selected, placements := Deselected(l.selected, v.id), l.placements[v.id := region];
    var replacement := FirstIn(views, placements, from, v.id);
    var refilled :=
      if !Shows(selected, from) && replacement.Some? then selected[from := replacement.value.id] else selected;
    Layout(refilled[region := v.id], placements, l.collapsed[region := false])
  }

  function Moved(views: seq<View>, l: Layout, id: Id, region: Region): Result<Layout, Error> {
    match FirstView(views, id)
    case None => Err(InvalidMove)
    case Some(v) =>
      if v.presentation.OnPage? then Err(InvalidMove)
      else if SlotOf(l.placements, v) == region then Ok(Show(l, v))
      else Ok(Shift(views, l, v, region))
  }

  function CollapsedTo(l: Layout, region: Region, flag: bool): Layout {
    if region == Main || (region in l.collapsed && l.collapsed[region] == flag) then l
    else l.(collapsed := l.collapsed[region := flag])
  }

  /** Views that stand in a region of their own are offered the regions in snapshot order. */
  function Refilled(views: seq<View>, selected: map<Slot, Id>): map<Slot, Id> {
    if views == [] then selected
    else
      var before, v := Refilled(views[..|views| - 1], selected), views[|views| - 1];
      if v.presentation.InRegion? && !Shows(before, v.presentation.region)
      then before[v.presentation.region := v.id] else before
  }

  lemma RefilledOneMore(views: seq<View>, i: nat, selected: map<Slot, Id>)
    requires i < |views|
    ensures var before, v := Refilled(views[..i], selected), views[i];
            Refilled(views[..i + 1], selected) ==
            if v.presentation.InRegion? && !Shows(before, v.presentation.region)
            then before[v.presentation.region := v.id] else before
  {
    assert views[..i + 1][..i] == views[..i];
  }

  function Reset(views: seq<View>, l: Layout): Layout {
    Layout(Refilled(views, map slot <- l.selected | slot == FullPage :: l.selected[slot]), map[], map[])
  }

  // ----- the layout invariant -----

  predicate Names(views: seq<View>, placements: map<Id, Region>, slot: Slot, id: Id) {
    exists v <- views :: v.id == id && SlotOf(placements, v) == slot
  }

  predicate SelectionInv(views: seq<View>, l: Layout) {
    forall slot <- l.selected :: Names(views, l.placements, slot, l.selected[slot])
  }

  predicate LayoutInv(views: seq<View>, l: Layout) {
    && SelectionInv(views, l)
    && l.placements.Keys <= IdsOf(views)
    && (Main in l.collapsed ==> !l.collapsed[Main])
  }

  predicate NoEmptyIds(views: seq<View>) {
    forall v <- views :: v.id.name != ""
  }

  lemma SameView(views: seq<View>, v: View, w: View)
    requires UniqueIds(views) && v in views && w in views && v.id == w.id
    ensures v == w
  {
    var i :| 0 <= i < |views| && views[i] == v;
    var j :| 0 <= j < |views| && views[j] == w;
    assert i == j;
  }

  /** No view is shown twice. */
  lemma SelectedOnce(views: seq<View>, l: Layout, a: Slot, b: Slot)
    requires UniqueIds(views) && LayoutInv(views, l) && a in l.selected && b in l.selected
    requires l.selected[a] == l.selected[b]
    ensures a == b
  {
    var v :| v in views && v.id == l.selected[a] && SlotOf(l.placements, v) == a;
    var w :| w in views && w.id == l.selected[b] && SlotOf(l.placements, w) == b;
    SameView(views, v, w);
  }

  lemma FilterKeeps(before: seq<View>, after: seq<View>, l: Layout)
    requires LayoutInv(before, l) && forall v <- before :: v.id in IdsOf(after) ==> v in after
    ensures LayoutInv(after, Filtered(after, l))
  {
    var f := Filtered(after, l);
    forall slot <- f.selected ensures Names(after, f.placements, slot, f.selected[slot]) {
      var v :| v in before && v.id == l.selected[slot] && SlotOf(l.placements, v) == slot;
      assert v in after && SlotOf(f.placements, v) == slot;
    }
  }

  lemma ShowKeeps(views: seq<View>, l: Layout, v: View)
    requires LayoutInv(views, l) && v in views
    ensures LayoutInv(views, Show(l, v))
  {
    var s := Show(l, v);
    forall slot <- s.selected ensures Names(views, s.placements, slot, s.selected[slot]) {
      assert slot in l.selected ==> Names(views, l.placements, slot, l.selected[slot]);
    }
  }

  lemma ShiftKeeps(views: seq<View>, l: Layout, v: View, region: Region)
    requires LayoutInv(views, l) && v in views && v.presentation.InRegion?
    ensures LayoutInv(views, Shift(views, l, v, region))
  {
    var s := Shift(views, l, v, region);
    forall slot <- s.selected ensures Names(views, s.placements, slot, s.selected[slot]) {
      if slot == region {
        assert SlotOf(s.placements, v) == region;
      } else if slot in l.selected && s.selected[slot] == l.selected[slot] && l.selected[slot] != v.id {
        var w :| w in views && w.id == l.selected[slot] && SlotOf(l.placements, w) == slot;
        assert SlotOf(s.placements, w) == slot;
      } else {
        var w := FirstIn(views, s.placements, SlotOf(l.placements, v), v.id).value;
        assert w.id == s.selected[slot] && SlotOf(s.placements, w) == slot;
      }
    }
  }

  /** A view stands in one slot, so only that slot can show it. */
  lemma OnlyItsSlot(views: seq<View>, l: Layout, v: View, slot: Slot)
    requires UniqueIds(views) && LayoutInv(views, l) && v in views && slot in l.selected && l.selected[slot] == v.id
    ensures slot == SlotOf(l.placements, v)
  {
    var w :| w in views && w.id == l.selected[slot] && SlotOf(l.placements, w) == slot;
    SameView(views, v, w);
  }

  /** A move to another region shows the view there and leaves every slot but the two regions alone. */
  lemma MoveTouchesTwoSlots(views: seq<View>, l: Layout, v: View, region: Region, slot: Slot)
    requires UniqueIds(views) && LayoutInv(views, l) && v in views && v.presentation.InRegion?
    requires SlotOf(l.placements, v) != region
    ensures var s := Shift(views, l, v, region);
            && s.selected[region] == v.id && SlotOf(s.placements, v) == region
            && (slot == SlotOf(l.placements, v) || slot == region ||
                ((slot in s.selected <==> slot in l.selected) &&
                 (slot in l.selected ==> s.selected[slot] == l.selected[slot])))
  {
    if slot in l.selected && l.selected[slot] == v.id { OnlyItsSlot(views, l, v, slot); }
  }

  /** The region it left keeps its selection if it showed another view, and otherwise shows a view exactly if one
    * is left in it. */
  lemma MoveRefillsTheSource(views: seq<View>, l: Layout, v: View, region: Region)
    requires UniqueIds(views) && NoEmptyIds(views) && LayoutInv(views, l) && v in views && v.presentation.InRegion?
    requires SlotOf(l.placements, v) != region
    ensures var from, s := SlotOf(l.placements, v), Shift(views, l, v, region);
            && (from in s.selected <==> exists w <- views :: SlotOf(s.placements, w) == from)
            && (from in l.selected && l.selected[from] != v.id ==>
                  from in s.selected && s.selected[from] == l.selected[from])
  {
    var from, s := SlotOf(l.placements, v), Shift(views, l, v, region);
    ShiftKeeps(views, l, v, region);
    if from in l.selected { assert Names(views, l.placements, from, l.selected[from]); }
    if from in s.selected { assert Names(views, s.placements, from, s.selected[from]); }
    assert FirstIn(views, s.placements, from, v.id).None? ==>
        forall w <- views :: w.id == v.id || SlotOf(s.placements, w) != from;
  }

  lemma {:induction false} RefilledEffect(views: seq<View>, selected: map<Slot, Id>, slot: Slot)
    requires NoEmptyIds(views) && selected.Keys <= {FullPage}
    ensures slot == FullPage ==> (slot in Refilled(views, selected) <==> slot in selected)
    ensures slot == FullPage && slot in selected ==> Refilled(views, selected)[slot] == selected[slot]
    ensures slot != FullPage ==> match FirstHome(views, slot)
                                 case None => slot !in Refilled(views, selected)
                                 case Some(v) =>
                                   slot in Refilled(views, selected) && Refilled(views, selected)[slot] == v.id
  {
    if views == [] { return; }
    var init, v := views[..|views| - 1], views[|views| - 1];
    RefilledEffect(init, selected, slot);
    assert views == init + [v];
    if v.presentation.InRegion? { RefilledEffect(init, selected, v.presentation.region); }
  }

  /** The first view whose own region is `slot`. */
  function FirstHome(views: seq<View>, slot: Slot): (r: Option<View>)
    ensures r.Some? ==> r.value in views && r.value.presentation.InRegion? && r.value.presentation.region == slot
    ensures r.None? ==> forall v <- views :: v.presentation.OnPage? || v.presentation.region != slot
  {
    if views == [] then None
    else
      var init, v := views[..|views| - 1], views[|views| - 1];
      assert views == init + [v];
      if FirstHome(init, slot).Some? then FirstHome(init, slot)
      else if v.presentation.InRegion? && v.presentation.region == slot then Some(v)
      else None
  }

  /** A reset keeps the full page and leaves every region showing the first view that belongs there. */
  lemma ResetEffect(views: seq<View>, l: Layout)
    requires NoEmptyIds(views) && LayoutInv(views, l)
    ensures LayoutInv(views, Reset(views, l))
    ensures forall v <- views | v.presentation.InRegion? :: v.presentation.region in Reset(views, l).selected
    ensures FullPage in Reset(views, l).selected <==> FullPage in l.selected
    ensures FullPage in l.selected ==> Reset(views, l).selected[FullPage] == l.selected[FullPage]
    ensures Reset(views, l).placements == map[] && Reset(views, l).collapsed == map[]
  {
    var kept := map slot <- l.selected | slot == FullPage :: l.selected[slot];
    var r := Reset(views, l);
    RefilledEffect(views, kept, FullPage);
    forall v <- views | v.presentation.InRegion? ensures v.presentation.region in r.selected {
      RefilledEffect(views, kept, v.presentation.region);
    }
    forall slot <- r.selected ensures Names(views, r.placements, slot, r.selected[slot]) {
      RefilledEffect(views, kept, slot);
      if slot == FullPage {
        var v :| v in views && v.id == l.selected[slot] && SlotOf(l.placements, v) == slot;
        assert SlotOf(r.placements, v) == slot;
      } else {
        var v := FirstHome(views, slot).value;
        assert SlotOf(r.placements, v) == slot;
      }
    }
  }

  // ----- runs -----

  datatype Bench = Bench(views: Registry, layout: Layout, closed: bool)
  datatype Handle = Handle(id: Id, token: nat)

  datatype Event =
    | AddView(view: View, scopeOpen: bool)
    | Dispose(handle: Handle)
    | Open(id: Id)
    | Close(id: Id)
    | Move(id: Id, region: Region)
    | Collapse(region: Region, flag: bool)
    | ResetLayout
    | End(own: seq<Handle>)

  const FRESH := Bench(Registry([], 0, false), BLANK_LAYOUT, false)

  function Notified(rank: Id -> real, b: Bench, views: Registry): Bench {
    Bench(views, Filtered(Snapshot(rank, views.values), b.layout), b.closed)
  }

  function AddStep(rank: Id -> real, b: Bench, view: View, scopeOpen: bool): (Bench, Result<nat, Error>) {
    var error := AddError(b.views, view, scopeOpen && !b.closed);
    if error.Some? then (b, Err(error.value)) else (Notified(rank, b, Added(b.views, view)), Ok(b.views.issued))
  }

  function DisposeStep(rank: Id -> real, b: Bench, h: Handle): Bench {
    if IsCurrent(b.views.values, h.id, h.token) then Notified(rank, b, Released(b.views, h.id, h.token)) else b
  }

  function OpenStep(rank: Id -> real, b: Bench, id: Id): (Bench, Result<(), Error>) {
    if b.closed then (b, Err(Closed))
    else
      match Opened(Snapshot(rank, b.views.values), b.layout, id)
      case Err(e) => (b, Err(e))
      case Ok(l) => (b.(layout := l), Ok(()))
  }

  function CloseStep(b: Bench, id: Id): Bench {
    b.(layout := b.layout.(selected := Deselected(b.layout.selected, id)))
  }

  function MoveStep(rank: Id -> real, b: Bench, id: Id, region: Region): (Bench, Result<(), Error>) {
    if b.closed then (b, Err(Closed))
    else
      match Moved(Snapshot(rank, b.views.values), b.layout, id, region)
      case Err(e) => (b, Err(e))
      case Ok(l) => (b.(layout := l), Ok(()))
  }

  function CollapseStep(b: Bench, region: Region, flag: bool): Bench {
    if b.closed then b else b.(layout := CollapsedTo(b.layout, region, flag))
  }

  function ResetStep(rank: Id -> real, b: Bench): Bench {
    if b.closed then b else b.(layout := Reset(Snapshot(rank, b.views.values), b.layout))
  }

  function DisposeAll(rank: Id -> real, b: Bench, own: seq<Handle>): Bench {
    if own == [] then b else DisposeStep(rank, DisposeAll(rank, b, own[..|own| - 1]), own[|own| - 1])
  }

  /** The lifetime ends: what it owns goes in reverse order of arrival, so the views it added itself go first, then
    * the subscription, and last the contribution point with the views of other scopes. */
  function EndStep(rank: Id -> real, b: Bench, own: seq<Handle>): Bench {
    if b.closed then b
    else
      var c := DisposeAll(rank, b.(closed := true), own);
      c.(views := Cleared(c.views))
  }

  function Step(rank: Id -> real, b: Bench, e: Event): Bench {
    match e
    case AddView(view, scopeOpen) => AddStep(rank, b, view, scopeOpen).0
    case Dispose(h) => DisposeStep(rank, b, h)
    case Open(id) => OpenStep(rank, b, id).0
    case Close(id) => CloseStep(b, id)
    case Move(id, region) => MoveStep(rank, b, id, region).0
    case Collapse(region, flag) => CollapseStep(b, region, flag)
    case ResetLayout => ResetStep(rank, b)
    case End(own) => EndStep(rank, b, own)
  }

  function Run(rank: Id -> real, b: Bench, events: seq<Event>): Bench {
    if events == [] then b else Step(rank, Run(rank, b, events[..|events| - 1]), events[|events| - 1])
  }

  ghost predicate Sound(rank: Id -> real, b: Bench) {
    RegistryInv(b.views) && LayoutInv(Snapshot(rank, b.views.values), b.layout)
  }

  /** While the lifetime lasts the layout names registered views only. */
  ghost predicate BenchInv(rank: Id -> real, b: Bench) {
    && RegistryInv(b.views)
    && (b.closed <==> b.views.disposed)
    && (!b.closed ==> Sound(rank, b))
  }

  lemma SnapshotFacts(rank: Id -> real, r: Registry)
    requires RegistryInv(r)
    ensures UniqueIds(Snapshot(rank, r.values)) && NoEmptyIds(Snapshot(rank, r.values))
  {
    SnapshotMembers(rank, r.values);
    forall v <- Snapshot(rank, r.values) ensures v.id.name != "" {
      var h :| h in r.values && h.view == v;
      assert !Blank(h.view.id);
    }
  }

  lemma AddIsSound(rank: Id -> real, b: Bench, view: View, scopeOpen: bool)
    requires Sound(rank, b)
    ensures Sound(rank, AddStep(rank, b, view, scopeOpen).0)
  {
    if AddStep(rank, b, view, scopeOpen).1.Ok? {
      AddKeeps(b.views, view, scopeOpen && !b.closed);
      var r := Added(b.views, view);
      var before, after := Snapshot(rank, b.views.values), Snapshot(rank, r.values);
      SnapshotMembers(rank, b.views.values);
      SnapshotMembers(rank, r.values);
      forall v <- before ensures v in after { var h :| h in b.views.values && h.view == v; assert h in r.values; }
      FilterKeeps(before, after, b.layout);
    }
  }

  lemma DisposeIsSound(rank: Id -> real, b: Bench, h: Handle)
    requires Sound(rank, b)
    ensures Sound(rank, DisposeStep(rank, b, h))
  {
    ReleaseKeeps(b.views, h.id, h.token);
    var r := Released(b.views, h.id, h.token);
    var before, after := Snapshot(rank, b.views.values), Snapshot(rank, r.values);
    SnapshotMembers(rank, b.views.values);
    SnapshotMembers(rank, r.values);
    SnapshotFacts(rank, b.views);
    forall v <- before ensures v.id in IdsOf(after) ==> v in after {
      if v.id in IdsOf(after) {
        var w :| w in after && w.id == v.id;
        var g :| g in r.values && g.view == w;
        assert w in before;
        SameView(before, v, w);
      }
    }
    FilterKeeps(before, after, b.layout);
  }

  lemma MoveIsSound(rank: Id -> real, b: Bench, id: Id, region: Region)
    requires Sound(rank, b)
    ensures Sound(rank, MoveStep(rank, b, id, region).0)
  {
    var views := Snapshot(rank, b.views.values);
    SnapshotFacts(rank, b.views);
    var v := FirstView(views, id);
    if v.Some? {
      ShowKeeps(views, b.layout, v.value);
      if v.value.presentation.InRegion? { ShiftKeeps(views, b.layout, v.value, region); }
    }
  }

  lemma OpenIsSound(rank: Id -> real, b: Bench, id: Id)
    requires Sound(rank, b)
    ensures Sound(rank, OpenStep(rank, b, id).0)
  {
    var views := Snapshot(rank, b.views.values);
    var v := FirstView(views, id);
    if v.Some? { ShowKeeps(views, b.layout, v.value); }
  }

  lemma ResetIsSound(rank: Id -> real, b: Bench)
    requires Sound(rank, b)
    ensures Sound(rank, ResetStep(rank, b))
  {
    SnapshotFacts(rank, b.views);
    ResetEffect(Snapshot(rank, b.views.values), b.layout);
  }

  /** What the disposers of a closing lifetime leave: exactly the views of other scopes, and of the selection
    * exactly the slots showing one of those. */
  lemma {:induction false} DisposeAllEffect(rank: Id -> real, b: Bench, own: seq<Handle>)
    requires Sound(rank, b)
    ensures var c := DisposeAll(rank, b, own);
            && Sound(rank, c) && c.closed == b.closed && c.views.disposed == b.views.disposed
            && c.views.issued == b.views.issued
            && (forall h :: h in c.views.values <==> h in b.views.values && Handle(h.view.id, h.token) !in own)
            && (forall slot <- c.layout.selected :: slot in b.layout.selected)
            && (forall slot <- b.layout.selected ::
                  (slot in c.layout.selected <==> Has(c.views.values, b.layout.selected[slot])) &&
                  (slot in c.layout.selected ==> c.layout.selected[slot] == b.layout.selected[slot]))
  {
    if own == [] {
      SelectedAreRegistered(rank, b);
      return;
    }
    var init, h := own[..|own| - 1], own[|own| - 1];
    DisposeAllEffect(rank, b, init);
    assert own == init + [h];
    var c := DisposeAll(rank, b, init);
    ReleaseKeeps(c.views, h.id, h.token);
    DisposeIsSound(rank, c, h);
    DisposeStepSelection(rank, c, h);
    var d := DisposeStep(rank, c, h);
    assert d.views == Released(c.views, h.id, h.token);
    forall id | Has(d.views.values, id) ensures Has(c.views.values, id) {
      var g :| g in d.views.values && g.view.id == id;
      assert g in c.views.values;
    }
  }

  lemma SelectedAreRegistered(rank: Id -> real, b: Bench)
    requires Sound(rank, b)
    ensures forall slot <- b.layout.selected :: Has(b.views.values, b.layout.selected[slot])
  {
    SnapshotMembers(rank, b.views.values);
    forall slot <- b.layout.selected ensures Has(b.views.values, b.layout.selected[slot]) {
      assert Names(Snapshot(rank, b.views.values), b.layout.placements, slot, b.layout.selected[slot]);
    }
  }

  lemma DisposeStepSelection(rank: Id -> real, b: Bench, h: Handle)
    requires Sound(rank, b)
    ensures var c := DisposeStep(rank, b, h);
            && (forall slot <- c.layout.selected :: slot in b.layout.selected)
            && (forall slot <- b.layout.selected ::
                  (slot in c.layout.selected <==> Has(c.views.values, b.layout.selected[slot])) &&
                  (slot in c.layout.selected ==> c.layout.selected[slot] == b.layout.selected[slot]))
  {
    SelectedAreRegistered(rank, b);
    var r := Released(b.views, h.id, h.token);
    SnapshotMembers(rank, r.values);
    forall id ensures id in IdsOf(Snapshot(rank, r.values)) <==> Has(r.values, id) {
      if Has(r.values, id) {
        var g :| g in r.values && g.view.id == id;
        assert g.view in Snapshot(rank, r.values);
      }
    }
  }

  lemma StepKeepsInv(rank: Id -> real, b: Bench, e: Event)
    requires BenchInv(rank, b)
    ensures BenchInv(rank, Step(rank, b, e))
  {
    if b.closed { return; }
    match e
    case AddView(view, scopeOpen) => AddIsSound(rank, b, view, scopeOpen);
    case Dispose(h) => DisposeIsSound(rank, b, h);
    case Open(id) => OpenIsSound(rank, b, id);
    case Close(id) => CloseIsSound(rank, b, id);
    case Move(id, region) => MoveIsSound(rank, b, id, region);
    case Collapse(region, flag) => CollapseIsSound(rank, b, region, flag);
    case ResetLayout => ResetIsSound(rank, b);
    case End(own) => DisposeAllEffect(rank, b.(closed := true), own);
  }

  lemma CloseIsSound(rank: Id -> real, b: Bench, id: Id)
    requires Sound(rank, b)
    ensures Sound(rank, CloseStep(b, id))
  {
    var views, l := Snapshot(rank, b.views.values), CloseStep(b, id).layout;
    forall slot <- l.selected ensures Names(views, l.placements, slot, l.selected[slot]) {
      assert Names(views, b.layout.placements, slot, b.layout.selected[slot]);
    }
  }

  lemma CollapseIsSound(rank: Id -> real, b: Bench, region: Region, flag: bool)
    requires Sound(rank, b)
    ensures Sound(rank, CollapseStep(b, region, flag))
  {
    var views, l := Snapshot(rank, b.views.values), CollapseStep(b, region, flag).layout;
    forall slot <- l.selected ensures Names(views, l.placements, slot, l.selected[slot]) {
      assert Names(views, b.layout.placements, slot, b.layout.selected[slot]);
    }
  }

  lemma {:induction false} RunKeepsInv(rank: Id -> real, events: seq<Event>)
    ensures BenchInv(rank, Run(rank, FRESH, events))
  {
    if events != [] {
      RunKeepsInv(rank, events[..|events| - 1]);
      StepKeepsInv(rank, Run(rank, FRESH, events[..|events| - 1]), events[|events| - 1]);
    }
  }

  /** After any run of an open workbench each slot shows at most a registered view that stands in it, so no view is
    * shown twice, and the main region is not collapsed. */
  lemma ShownViewsStandThere(rank: Id -> real, events: seq<Event>)
    requires !Run(rank, FRESH, events).closed
    ensures var b := Run(rank, FRESH, events);
            && (forall slot <- b.layout.selected :: exists h <- b.views.values ::
                  h.view.id == b.layout.selected[slot] && SlotOf(b.layout.placements, h.view) == slot)
            && (forall x <- b.layout.selected, y <- b.layout.selected ::
                  b.layout.selected[x] == b.layout.selected[y] ==> x == y)
            && (Main in b.layout.collapsed ==> !b.layout.collapsed[Main])
  {
    var b := Run(rank, FRESH, events);
    RunKeepsInv(rank, events);
    SnapshotFacts(rank, b.views);
    SnapshotMembers(rank, b.views.values);
    var views := Snapshot(rank, b.views.values);
    forall slot <- b.layout.selected
      ensures exists h <- b.views.values ::
          h.view.id == b.layout.selected[slot] && SlotOf(b.layout.placements, h.view) == slot
    {
      assert Names(views, b.layout.placements, slot, b.layout.selected[slot]);
    }
    forall x <- b.layout.selected, y <- b.layout.selected | b.layout.selected[x] == b.layout.selected[y]
      ensures x == y
    {
      SelectedOnce(views, b.layout, x, y);
    }
  }

  // ----- what the operations do -----

  /** Where a registered view stands: full page, the region it was moved to, or its own. */
  ghost predicate StandsIn(l: Layout, v: View, slot: Slot) {
    match v.presentation
    case OnPage => slot == FullPage
    case InRegion(region) => if v.id in l.placements then slot == l.placements[v.id] else slot == region
  }

  predicate IsRegistered(b: Bench, id: Id) {
    exists h <- b.views.values :: h.view.id == id
  }

  lemma RegisteredExactly(rank: Id -> real, b: Bench, id: Id)
    ensures IsRegistered(b, id) <==> id in IdsOf(Snapshot(rank, b.views.values))
  {
    SnapshotMembers(rank, b.views.values);
    if IsRegistered(b, id) {
      var h :| h in b.views.values && h.view.id == id;
      assert h.view in Snapshot(rank, b.views.values);
    }
  }

  /** In every run: a view is accepted exactly while the workbench and the scope last, if its id is not blank and no
    * view has it; otherwise nothing changes, and the answer is the first reason that applies. */
  lemma AddedExactly(rank: Id -> real, events: seq<Event>, view: View, scopeOpen: bool)
    ensures var b := Run(rank, FRESH, events);
            var (after, answer) := AddStep(rank, b, view, scopeOpen);
            && (answer == Err(ScopeClosed) <==> !scopeOpen || b.closed)
            && (answer == Err(IdRequired) <==> scopeOpen && !b.closed && Blank(view.id))
            && (answer == Err(Duplicate) <==> scopeOpen && !b.closed && !Blank(view.id) && IsRegistered(b, view.id))
            && (answer.Ok? <==> scopeOpen && !b.closed && !Blank(view.id) && !IsRegistered(b, view.id))
            && (answer.Err? ==> after == b)
            && (answer.Ok? ==>
                  && answer.value == b.views.issued && IsCurrent(after.views.values, view.id, answer.value)
                  && forall h :: h in after.views.values <==> h in b.views.values || h == Held(answer.value, view))
  {
    RunKeepsInv(rank, events);
    var b := Run(rank, FRESH, events);
    if AddError(b.views, view, scopeOpen && !b.closed).None? { AddKeeps(b.views, view, scopeOpen && !b.closed); }
  }

  /** In every run: opening a registered view shows it where it stands and expands that region, and touches nothing
    * else. Opening an unknown view, or anything after the end, changes nothing and says why. */
  lemma OpenShows(rank: Id -> real, events: seq<Event>, id: Id, v: View, slot: Slot)
    requires var b := Run(rank, FRESH, events);
             IsRegistered(b, id) ==>
               (exists h <- b.views.values :: h.view == v) && v.id == id && StandsIn(b.layout, v, slot)
    ensures var b := Run(rank, FRESH, events);
            OpenStep(rank, b, id) ==
            if b.closed then (b, Err(Closed))
            else if !IsRegistered(b, id) then (b, Err(Unavailable))
            else
              var l := b.layout;
              (b.(layout := Layout(l.selected[slot := id], l.placements,
                                   if slot == FullPage then l.collapsed else l.collapsed[slot := false])), Ok(()))
  {
    var b := Run(rank, FRESH, events);
    RunKeepsInv(rank, events);
    RegisteredExactly(rank, b, id);
    var views := Snapshot(rank, b.views.values);
    SnapshotMembers(rank, b.views.values);
    SnapshotFacts(rank, b.views);
    if IsRegistered(b, id) { SameView(views, v, FirstView(views, id).value); }
  }

  /** Closing a view takes it out of the slot that shows it; every other slot shows what it showed. */
  lemma CloseHides(rank: Id -> real, events: seq<Event>, id: Id, slot: Slot)
    ensures var before, after := Run(rank, FRESH, events), Run(rank, FRESH, events + [Close(id)]);
            && (slot in after.layout.selected <==> slot in before.layout.selected && before.layout.selected[slot] != id)
            && (slot in after.layout.selected ==> after.layout.selected[slot] == before.layout.selected[slot])
            && after == before.(layout := before.layout.(selected := after.layout.selected))
  {
    assert (events + [Close(id)])[..|events|] == events;
  }

  /** Collapsing or expanding a region other than `main` does so, and nothing else, as long as the lifetime lasts. */
  lemma CollapseTakesEffect(rank: Id -> real, events: seq<Event>, region: Region, flag: bool)
    ensures var before, after := Run(rank, FRESH, events), Run(rank, FRESH, events + [Collapse(region, flag)]);
            if before.closed || region == Main then after == before
            else after == before.(layout := before.layout.(collapsed := before.layout.collapsed[region := flag]))
  {
    assert (events + [Collapse(region, flag)])[..|events|] == events;
    var l := Run(rank, FRESH, events).layout;
    if region in l.collapsed && l.collapsed[region] == flag { assert l.collapsed == l.collapsed[region := flag]; }
  }

  /** What the region a view left shows: the view it showed, if that was another one, and else the first view in
    * snapshot order that stands there now. */
  ghost predicate Refill(views: seq<View>, before: Layout, after: Layout, id: Id, from: Slot) {
    if from in before.selected && before.selected[from] != id
    then from in after.selected && after.selected[from] == before.selected[from]
    else if from in after.selected
    then exists i :: && 0 <= i < |views| && after.selected[from] == views[i].id && StandsIn(after, views[i], from)
                     && forall j | 0 <= j < i :: !StandsIn(after, views[j], from)
    else forall w <- views :: !StandsIn(after, w, from)
  }

  lemma StandsInExactly(l: Layout, v: View, slot: Slot)
    ensures StandsIn(l, v, slot) <==> SlotOf(l.placements, v) == slot
  {
  }

  lemma ShiftRefills(views: seq<View>, l: Layout, v: View, region: Region)
    requires UniqueIds(views) && NoEmptyIds(views) && LayoutInv(views, l) && v in views && v.presentation.InRegion?
    requires SlotOf(l.placements, v) != region
    ensures Refill(views, l, Shift(views, l, v, region), v.id, SlotOf(l.placements, v))
  {
    var from, s := SlotOf(l.placements, v), Shift(views, l, v, region);
    MoveRefillsTheSource(views, l, v, region);
    forall w ensures StandsIn(s, w, from) <==> SlotOf(s.placements, w) == from { StandsInExactly(s, w, from); }
    if !(from in l.selected && l.selected[from] != v.id) && from in s.selected {
      var first := FirstIn(views, s.placements, from, v.id);
      var i :| 0 <= i < |views| && views[i] == first.value && NoneIn(views[..i], s.placements, from, v.id);
      forall j | 0 <= j < i ensures !StandsIn(s, views[j], from) {
        assert views[j] in views[..i];
        if views[j].id == v.id { SameView(views, views[j], v); }
      }
    }
  }

  lemma FoundById(rank: Id -> real, b: Bench, v: View)
    requires RegistryInv(b.views) && exists h <- b.views.values :: h.view == v
    ensures v in Snapshot(rank, b.views.values) && FirstView(Snapshot(rank, b.views.values), v.id) == Some(v)
  {
    SnapshotMembers(rank, b.views.values);
    SnapshotFacts(rank, b.views);
    var views := Snapshot(rank, b.views.values);
    SameView(views, v, FirstView(views, v.id).value);
  }

  lemma FoundViewIsShifted(rank: Id -> real, b: Bench, v: View, region: Region)
    requires FirstView(Snapshot(rank, b.views.values), v.id) == Some(v) && v.presentation.InRegion?
    requires !b.closed && SlotOf(b.layout.placements, v) != region
    ensures Step(rank, b, Move(v.id, region)) ==
            b.(layout := Shift(Snapshot(rank, b.views.values), b.layout, v, region))
  {
  }

  lemma MoveIsAShift(rank: Id -> real, events: seq<Event>, v: View, region: Region)
    requires var b := Run(rank, FRESH, events);
             !b.closed && (exists h <- b.views.values :: h.view == v) && v.presentation.InRegion?
    requires SlotOf(Run(rank, FRESH, events).layout.placements, v) != region
    ensures var b := Run(rank, FRESH, events);
            && Run(rank, FRESH, events + [Move(v.id, region)]) ==
               b.(layout := Shift(Snapshot(rank, b.views.values), b.layout, v, region))
            && Sound(rank, b) && v in Snapshot(rank, b.views.values)
  {
    var more := events + [Move(v.id, region)];
    assert more[..|more| - 1] == events && more[|more| - 1] == Move(v.id, region);
    RunKeepsInv(rank, events);
    FoundById(rank, Run(rank, FRESH, events), v);
    FoundViewIsShifted(rank, Run(rank, FRESH, events), v, region);
  }

  /** Moving a view that stands in another region of an open workbench puts it there, shows it and expands the region;
    * the region it left is refilled, and no other slot changes. */
  lemma MoveTakesEffect(rank: Id -> real, events: seq<Event>, v: View, from: Region, region: Region, slot: Slot)
    requires var b := Run(rank, FRESH, events);
             !b.closed && (exists h <- b.views.values :: h.view == v) && StandsIn(b.layout, v, from) && from != region
    ensures var before, after := Run(rank, FRESH, events), Run(rank, FRESH, events + [Move(v.id, region)]);
            && after.views == before.views && after.closed == before.closed
            && after.layout.placements == before.layout.placements[v.id := region]
            && after.layout.collapsed == before.layout.collapsed[region := false]
            && region in after.layout.selected && after.layout.selected[region] == v.id
            && Refill(Snapshot(rank, before.views.values), before.layout, after.layout, v.id, from)
            && (slot != from && slot != region ==>
                  && (slot in after.layout.selected <==> slot in before.layout.selected)
                  && (slot in after.layout.selected ==> after.layout.selected[slot] == before.layout.selected[slot]))
  {
    var b := Run(rank, FRESH, events);
    var views := Snapshot(rank, b.views.values);
    StandsInExactly(b.layout, v, from);
    MoveIsAShift(rank, events, v, region);
    SnapshotFacts(rank, b.views);
    ShiftRefills(views, b.layout, v, region);
    MoveTouchesTwoSlots(views, b.layout, v, region, slot);
  }

  /** A move is refused, and changes nothing, after the end, for an unknown view and for a full-page one. */
  lemma MoveRefusedExactly(rank: Id -> real, events: seq<Event>, id: Id, region: Region)
    ensures var b := Run(rank, FRESH, events);
            var (after, answer) := MoveStep(rank, b, id, region);
            && (answer == Err(Closed) <==> b.closed)
            && (answer == Err(InvalidMove) <==>
                  !b.closed && forall h <- b.views.values :: h.view.id == id ==> h.view.presentation.OnPage?)
            && (answer.Err? ==> after == b && answer.error in {Closed, InvalidMove})
  {
    var b := Run(rank, FRESH, events);
    RunKeepsInv(rank, events);
    SnapshotMembers(rank, b.views.values);
    SnapshotFacts(rank, b.views);
    var views := Snapshot(rank, b.views.values);
    forall h <- b.views.values | h.view.id == id ensures FirstView(views, id) == Some(h.view) {
      assert h.view in views;
      SameView(views, h.view, FirstView(views, id).value);
    }
  }

  /** A view that was opened stays shown whatever is added, expanded or collapsed, and whichever other views are closed
    * or leave. */
  predicate Harmless(e: Event, id: Id) {
    e.AddView? || e.Collapse? || (e.Close? && e.id != id) || (e.Dispose? && e.handle.id != id)
  }

  ghost predicate ShownAt(rank: Id -> real, b: Bench, slot: Slot, id: Id) {
    BenchInv(rank, b) && !b.closed && slot in b.layout.selected && b.layout.selected[slot] == id
  }

  lemma NotifiedKeepsShown(rank: Id -> real, b: Bench, r: Registry, slot: Slot, id: Id)
    requires slot in b.layout.selected && b.layout.selected[slot] == id && exists h <- r.values :: h.view.id == id
    ensures slot in Notified(rank, b, r).layout.selected && Notified(rank, b, r).layout.selected[slot] == id
  {
    RegisteredExactly(rank, b.(views := r), id);
  }

  lemma HarmlessKeepsShown(rank: Id -> real, b: Bench, e: Event, slot: Slot, id: Id)
    requires ShownAt(rank, b, slot, id) && Harmless(e, id)
    ensures ShownAt(rank, Step(rank, b, e), slot, id)
  {
    StepKeepsInv(rank, b, e);
    SelectedAreRegistered(rank, b);
    var h :| h in b.views.values && h.view.id == id;
    if e.AddView? {
      assert h in Added(b.views, e.view).values;
      NotifiedKeepsShown(rank, b, Added(b.views, e.view), slot, id);
    } else if e.Dispose? {
      ReleaseKeeps(b.views, e.handle.id, e.handle.token);
      assert h in Released(b.views, e.handle.id, e.handle.token).values;
      NotifiedKeepsShown(rank, b, Released(b.views, e.handle.id, e.handle.token), slot, id);
    }
  }

  lemma {:induction false} OpenedStaysShown(rank: Id -> real, b: Bench, slot: Slot, id: Id, events: seq<Event>)
    requires ShownAt(rank, b, slot, id) && forall e <- events :: Harmless(e, id)
    ensures ShownAt(rank, Run(rank, b, events), slot, id)
  {
    if events != [] {
      OpenedStaysShown(rank, b, slot, id, events[..|events| - 1]);
      HarmlessKeepsShown(rank, Run(rank, b, events[..|events| - 1]), events[|events| - 1], slot, id);
    }
  }

  /** The end of the lifetime leaves a slot naming a view that is gone, unless every shown view was its own. */
  lemma EndClearsTheSelectionExactly(rank: Id -> real, b: Bench, own: seq<Handle>)
    requires BenchInv(rank, b) && !b.closed
    ensures var c := EndStep(rank, b, own);
            && c.views.values == []
            && (SelectionInv(Snapshot(rank, c.views.values), c.layout) <==>
                forall slot <- b.layout.selected :: OwnView(b.views.values, b.layout.selected[slot], own))
  {
    var d := DisposeAll(rank, b.(closed := true), own);
    DisposeAllEffect(rank, b.(closed := true), own);
    var c := EndStep(rank, b, own);
    SelectedAreRegistered(rank, b);
    forall slot <- b.layout.selected
      ensures slot !in c.layout.selected <==> OwnView(b.views.values, b.layout.selected[slot], own)
    {
      SurvivesExactly(b.views, d.views.values, b.layout.selected[slot], own);
    }
    assert SelectionInv([], c.layout) <==> c.layout.selected.Keys == {};
  }

  function WithOneView(view: View, layout: Layout): Bench {
    Bench(Registry([Held(0, view)], 1, false), layout, false)
  }

  lemma OneViewAdded(rank: Id -> real, view: View)
    requires !Blank(view.id)
    ensures Snapshot(rank, [Held(0, view)]) == [view]
    ensures AddStep(rank, FRESH, view, true).0 == WithOneView(view, BLANK_LAYOUT)
  {
    assert [Held(0, view)][..0] == [];
  }

  lemma OneViewOpened(rank: Id -> real, view: View)
    requires Snapshot(rank, [Held(0, view)]) == [view]
    ensures OpenStep(rank, WithOneView(view, BLANK_LAYOUT), view.id).0 == WithOneView(view, Show(BLANK_LAYOUT, view))
  {
  }

  lemma RunOfThree(rank: Id -> real, b: Bench, x: Event, y: Event, z: Event)
    ensures Run(rank, b, [x, y, z]) == Step(rank, Step(rank, Step(rank, b, x), y), z)
  {
    assert [x, y, z][..2] == [x, y] && [x, y][..1] == [x] && [x][..0] == [];
    assert Run(rank, b, [x]) == Step(rank, Run(rank, b, []), x);
    assert Run(rank, b, [x, y]) == Step(rank, Run(rank, b, [x]), y);
  }

  /** Another scope's view is shown when the lifetime ends: it stays selected although no view is registered any
    * more. */
  lemma GoneViewStaysSelected(rank: Id -> real, region: Region)
    ensures var view := View(Id("v"), InRegion(region));
            var c := Run(rank, FRESH, [AddView(view, true), Open(Id("v")), End([])]);
            c.views.values == [] && c.layout.selected == map[region := Id("v")]
  {
    var view := View(Id("v"), InRegion(region));
    assert !Blank(Id("v")) by { assert "v"[0] == 'v' && 'v' in "v"; }
    OneViewAdded(rank, view);
    OneViewOpened(rank, view);
    RunOfThree(rank, FRESH, AddView(view, true), Open(Id("v")), End([]));
  }

  predicate OwnView(values: seq<Held>, id: Id, own: seq<Handle>) {
    exists h <- values :: h.view.id == id && Handle(h.view.id, h.token) in own
  }

  lemma SurvivesExactly(r: Registry, after: seq<Held>, id: Id, own: seq<Handle>)
    requires RegistryInv(r) && Has(r.values, id)
    requires forall h :: h in after <==> h in r.values && Handle(h.view.id, h.token) !in own
    ensures !Has(after, id) <==> OwnView(r.values, id, own)
  {
    var g :| g in r.values && g.view.id == id;
    forall h <- r.values ensures h.view.id == id ==> h == g {
      var i :| 0 <= i < |r.values| && r.values[i] == h;
      var j :| 0 <= j < |r.values| && r.values[j] == g;
      assert h.view.id == id ==> i == j;
    }
  }

  // ----- stale disposers -----

  lemma TokensStayOut(rank: Id -> real, b: Bench, e: Event, token: nat)
    requires BenchInv(rank, b) && token < b.views.issued && forall h <- b.views.values :: h.token != token
    ensures var c := Step(rank, b, e);
            token < c.views.issued && forall h <- c.views.values :: h.token != token
  {
    match e
    case AddView(view, scopeOpen) =>
      if AddStep(rank, b, view, scopeOpen).1.Ok? { AddKeeps(b.views, view, scopeOpen && !b.closed); }
    case Dispose(h) => ReleaseKeeps(b.views, h.id, h.token);
    case End(own) => if !b.closed { DisposeAllEffect(rank, b.(closed := true), own); }
    case _ =>
  }

  lemma {:induction false} TokensStayOutForEver(rank: Id -> real, b: Bench, events: seq<Event>, token: nat)
    requires BenchInv(rank, b) && token < b.views.issued && forall h <- b.views.values :: h.token != token
    ensures var c := Run(rank, b, events);
            BenchInv(rank, c) && token < c.views.issued && forall h <- c.views.values :: h.token != token
  {
    if events != [] {
      TokensStayOutForEver(rank, b, events[..|events| - 1], token);
      StepKeepsInv(rank, Run(rank, b, events[..|events| - 1]), events[|events| - 1]);
      TokensStayOut(rank, Run(rank, b, events[..|events| - 1]), events[|events| - 1], token);
    }
  }

  /** A disposer that has done its work changes nothing any more, whatever was registered under its id since. */
  lemma StaleDisposerIsHarmless(rank: Id -> real, b: Bench, h: Handle, events: seq<Event>)
    requires BenchInv(rank, b) && IsCurrent(b.views.values, h.id, h.token)
    ensures var c := Run(rank, DisposeStep(rank, b, h), events);
            DisposeStep(rank, c, h) == c
  {
    var g :| g in b.views.values && g.view.id == h.id && g.token == h.token;
    ReleaseKeeps(b.views, h.id, h.token);
    StepKeepsInv(rank, b, Dispose(h));
    TokensStayOutForEver(rank, DisposeStep(rank, b, h), events, h.token);
  }

  // ----- the workbench itself -----

  class WorkbenchModel {
    const views: ContributionPoint
    var selected: map<Slot, Id>
    var placements: map<Id, Region>
    var collapsed: map<Slot, bool>
    var lifetimeOver: bool

    ghost function Model(): Bench
      reads this, views
    {
      Bench(views.Model(), Layout(selected, placements, collapsed), lifetimeOver)
    }

    ghost predicate Valid()
      reads this, views
    {
      views.Valid()
    }

    constructor (rank: Id -> real)
      ensures Valid() && Model() == FRESH && fresh(views) && views.rank == rank
    {
      views := new ContributionPoint(rank);
      selected, placements, collapsed, lifetimeOver := map[], map[], map[], false;
    }

    /** The subscription to the contribution point. */
    method OnViewsChanged()
      requires Valid()
      modifies this
      ensures Model() == Notified(views.rank, old(Model()), old(views.Model()))
    {
      var ids := set v <- views.snapshot :: v.id;
      selected := map slot <- selected | selected[slot] in ids :: selected[slot];
      placements := map id <- placements | id in ids :: placements[id];
    }

    method AddView(view: View, scopeOpen: bool) returns (answer: Result<nat, Error>)
      requires Valid()
      modifies this, views
      ensures Valid() && (Model(), answer) == AddStep(views.rank, old(Model()), view, scopeOpen)
    {
      answer := views.Add(view, scopeOpen && !lifetimeOver);
      if answer.Ok? { OnViewsChanged(); }
    }

    method DisposeView(h: Handle)
      requires Valid()
      modifies this, views
      ensures Valid() && Model() == DisposeStep(views.rank, old(Model()), h)
    {
      var removed := views.Release(h.id, h.token);
      if removed { OnViewsChanged(); }
    }

    method OpenView(id: Id) returns (answer: Result<(), Error>)
      requires Valid()
      modifies this
      ensures Valid() && (Model(), answer) == OpenStep(views.rank, old(Model()), id)
    {
      if lifetimeOver { return Err(Closed); }
      var view := FirstView(views.snapshot, id);
      if view.None? { return Err(Unavailable); }
      var target := SlotOf(placements, view.value);
      selected := selected[target := id];
      if target != FullPage { collapsed := collapsed[target := false]; }
      answer := Ok(());
    }

    method CloseView(id: Id)
      requires Valid()
      modifies this
      ensures Valid() && Model() == CloseStep(old(Model()), id)
    {
      selected := map slot <- selected | selected[slot] != id :: selected[slot];
    }

    method CollapseRegion(region: Region, flag: bool)
      requires Valid()
      modifies this
      ensures Valid() && Model() == CollapseStep(old(Model()), region, flag)
    {
      if lifetimeOver || region == Main || (region in collapsed && collapsed[region] == flag) { return; }
      collapsed := collapsed[region := flag];
    }

    method MoveView(id: Id, region: Region) returns (answer: Result<(), Error>)
      requires Valid()
      modifies this
      ensures Valid() && (Model(), answer) == MoveStep(views.rank, old(Model()), id, region)
    {
      if lifetimeOver { return Err(Closed); }
      var view := FirstView(views.snapshot, id);
      if view.None? || view.value.presentation.OnPage? { return Err(InvalidMove); }
      var from := SlotOf(placements, view.value);
      if from == region {
        answer := OpenView(id);
        return;
      }
      selected := map slot <- selected | selected[slot] != id :: selected[slot];
      placements := placements[id := region];
      collapsed := collapsed[region := false];
      var replacement := FirstIn(views.snapshot, placements, from, id);
      if !Shows(selected, from) && replacement.Some? { selected := selected[from := replacement.value.id]; }
      selected := selected[region := id];
      answer := Ok(());
    }

    method ResetViews()
      requires Valid()
      modifies this
      ensures Valid() && Model() == ResetStep(views.rank, old(Model()))
    {
      if lifetimeOver { return; }
      placements, collapsed := map[], map[];
      selected := map slot <- selected | slot == FullPage :: selected[slot];
      selected := Refill(views.snapshot, selected);
    }

    /** The loop of the reset: every view is offered its own region. */
    static method Refill(snapshot: seq<View>, kept: map<Slot, Id>) returns (selected: map<Slot, Id>)
      ensures selected == Refilled(snapshot, kept)
    {
      selected := kept;
      for i := 0 to |snapshot|
        invariant selected == Refilled(snapshot[..i], kept)
      {
        var view := snapshot[i];
        RefilledOneMore(snapshot, i, kept);
        if view.presentation.InRegion? && !Shows(selected, view.presentation.region) {
          selected := selected[view.presentation.region := view.id];
        }
      }
      assert snapshot[..|snapshot|] == snapshot;
    }

    method EndLifetime(own: seq<Handle>)
      requires Valid()
      modifies this, views
      ensures Valid() && Model() == EndStep(views.rank, old(Model()), own)
    {
      if lifetimeOver { return; }
      lifetimeOver := true;
      ghost var start := Model();
      for i := 0 to |own|
        modifies this, views
        invariant Valid() && Model() == DisposeAll(views.rank, start, own[..i])
      {
        DisposeView(own[i]);
        assert own[..i + 1][..i] == own[..i];
      }
      assert own[..|own|] == own;
      views.Dispose();
    }
  }
}
