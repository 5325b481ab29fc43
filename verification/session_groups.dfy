/** The session list as project groups: in order of first appearance, pinned sessions leading inside a group, the
  * standalone group last. */
module SessionGroups {
  import opened Wrappers

  datatype Session = Session(id: string, workspaceId: Option<string>, pinned: bool)
  datatype Key = Key(text: string)
  datatype Group = Group(key: Key, standalone: bool, title: string, sessions: seq<Session>)

  const STANDALONE := Key("standalone")

  function Trimmed(s: string): (r: string)
    ensures r <= s && (r == "" || r[|r| - 1] != '/')
    ensures forall i | |r| <= i < |s| :: s[i] == '/'
  {
    if s != "" && s[|s| - 1] == '/' then Trimmed(s[..|s| - 1]) else s
  }

  function KeyOf(s: Session): Key {
    if s.workspaceId.None? || Trimmed(s.workspaceId.value) == "" then STANDALONE else Key(Trimmed(s.workspaceId.value))
  }

  /** What follows the last slash. */
  function Tail(s: string): (r: string)
    ensures '/' !in r && |r| <= |s| && s[|s| - |r|..] == r
    ensures s != "" && s[|s| - 1] != '/' ==> r != ""
    ensures |r| < |s| ==> s[|s| - |r| - 1] == '/'
  {
    if s == "" || s[|s| - 1] == '/' then "" else Tail(s[..|s| - 1]) + [s[|s| - 1]]
  }

  function Label(workspaceId: string): string {
    var tail := Tail(Trimmed(workspaceId));
    if tail == "" then workspaceId else tail
  }

  // ----- the stable sort -----

  function Compare(a: Session, b: Session): int {
    (if b.pinned then 1 else 0) - if a.pinned then 1 else 0
  }

  function Insert(sorted: seq<Session>, x: Session): seq<Session> {
    if sorted == [] || Compare(sorted[|sorted| - 1], x) <= 0 then sorted + [x]
    else Insert(sorted[..|sorted| - 1], x) + [sorted[|sorted| - 1]]
  }

  function Sorted(s: seq<Session>): seq<Session> {
    if s == [] then [] else Insert(Sorted(s[..|s| - 1]), s[|s| - 1])
  }

  function WithPin(s: seq<Session>, pinned: bool): seq<Session> {
    if s == [] then []
    else if s[|s| - 1].pinned == pinned then WithPin(s[..|s| - 1], pinned) + [s[|s| - 1]]
    else WithPin(s[..|s| - 1], pinned)
  }

  lemma {:induction false} WithPinAre(s: seq<Session>, pinned: bool)
    ensures forall x <- WithPin(s, pinned) :: x.pinned == pinned
  {
    if s != [] { WithPinAre(s[..|s| - 1], pinned); }
  }

  lemma {:induction false} InsertPinned(pinned: seq<Session>, others: seq<Session>, x: Session)
    requires x.pinned && (forall p <- pinned :: p.pinned) && forall o <- others :: !o.pinned
    ensures Insert(pinned + others, x) == pinned + [x] + others
  {
    var all := pinned + others;
    if others == [] {
      assert all == pinned;
    } else {
      var last := others[|others| - 1];
      var init := others[..|others| - 1];
      assert last in others && all[..|all| - 1] == pinned + init && all[|all| - 1] == last;
      InsertPinned(pinned, init, x);
      assert pinned + [x] + init + [last] == pinned + [x] + others;
    }
  }

  /** Sorting by the pin keeps the order of the pinned sessions and of the others. */
  lemma {:induction false} SortedIsPinnedFirst(s: seq<Session>)
    ensures Sorted(s) == WithPin(s, true) + WithPin(s, false)
  {
    if s == [] { return; }
    var init, x := s[..|s| - 1], s[|s| - 1];
    SortedIsPinnedFirst(init);
    WithPinAre(init, true);
    WithPinAre(init, false);
    if x.pinned {
      InsertPinned(WithPin(init, true), WithPin(init, false), x);
    } else {
      var before := WithPin(init, true) + WithPin(init, false);
      assert before == [] || Compare(before[|before| - 1], x) <= 0;
      assert before + [x] == WithPin(init, true) + (WithPin(init, false) + [x]);
    }
  }

  // ----- the projection -----

  /** The sessions of a group in the order of the list. */
  function Members(sessions: seq<Session>, key: Key): seq<Session> {
    if sessions == [] then []
    else if KeyOf(sessions[|sessions| - 1]) == key
    then Members(sessions[..|sessions| - 1], key) + [sessions[|sessions| - 1]]
    else Members(sessions[..|sessions| - 1], key)
  }

  /** Keys as they first appear. */
  function Order(sessions: seq<Session>): seq<Key> {
    if sessions == [] then []
    else
      var order, key := Order(sessions[..|sessions| - 1]), KeyOf(sessions[|sessions| - 1]);
      if key in order then order else order + [key]
  }

  function Without(keys: seq<Key>, key: Key): seq<Key> {
    if keys == [] then []
    else if keys[|keys| - 1] == key then Without(keys[..|keys| - 1], key)
    else Without(keys[..|keys| - 1], key) + [keys[|keys| - 1]]
  }

  function Arranged(sessions: seq<Session>): seq<Key> {
    Without(Order(sessions), STANDALONE) + if STANDALONE in Order(sessions) then [STANDALONE] else []
  }

  function GroupOf(key: Key, bucket: seq<Session>): Group {
    Group(key, key == STANDALONE, if key == STANDALONE then "Standalone sessions" else Label(key.text), Sorted(bucket))
  }

  function Groups(sessions: seq<Session>, keys: seq<Key>): seq<Group> {
    if keys == [] then []
    else Groups(sessions, keys[..|keys| - 1]) + [GroupOf(keys[|keys| - 1], Members(sessions, keys[|keys| - 1]))]
  }

  function Projected(sessions: seq<Session>): seq<Group> {
    Groups(sessions, Arranged(sessions))
  }

  /** What `order` and `grouped` are once the sessions of `seen` have been filed. */
  ghost predicate Filed(seen: seq<Session>, order: seq<Key>, grouped: map<Key, seq<Session>>) {
    && order == Order(seen)
    && (forall key :: key in grouped <==> key in order)
    && (forall key <- grouped :: grouped[key] == Members(seen, key))
    && (forall key :: key !in order ==> Members(seen, key) == [])
  }

  lemma FileOne(seen: seq<Session>, s: Session, order: seq<Key>, grouped: map<Key, seq<Session>>)
    requires Filed(seen, order, grouped)
    ensures var key := KeyOf(s);
            if key in grouped then Filed(seen + [s], order, grouped[key := grouped[key] + [s]])
            else Filed(seen + [s], order + [key], grouped[key := [s]])
  {
    assert (seen + [s])[..|seen|] == seen;
  }

  method ProjectSessionGroups(sessions: seq<Session>) returns (groups: seq<Group>)
    ensures groups == Projected(sessions)
  {
    var order: seq<Key>, grouped: map<Key, seq<Session>> := [], map[];
    for i := 0 to |sessions|
      invariant Filed(sessions[..i], order, grouped)
    {
      var session := sessions[i];
      var key := KeyOf(session);
      FileOne(sessions[..i], session, order, grouped);
      assert sessions[..i + 1] == sessions[..i] + [session];
      if key in grouped {
        grouped := grouped[key := grouped[key] + [session]];
      } else {
        grouped := grouped[key := [session]];
        order := order + [key];
      }
    }
    assert sessions[..|sessions|] == sessions;
    var keys := Without(order, STANDALONE);
    if STANDALONE in grouped { keys := keys + [STANDALONE]; }
    ArrangedFiled(sessions, order, grouped);
    groups := [];
    for i := 0 to |keys|
      invariant groups == Groups(sessions, keys[..i])
    {
      KeyIsFiled(sessions, order, grouped, keys[i]);
      GroupsOneMore(sessions, keys, i);
      groups := groups + [GroupOf(keys[i], grouped[keys[i]])];
    }
    assert keys[..|keys|] == keys;
  }

  lemma ArrangedFiled(seen: seq<Session>, order: seq<Key>, grouped: map<Key, seq<Session>>)
    requires Filed(seen, order, grouped)
    ensures STANDALONE in grouped ==> Arranged(seen) == Without(order, STANDALONE) + [STANDALONE]
    ensures STANDALONE !in grouped ==> Arranged(seen) == Without(order, STANDALONE)
    ensures forall i | 0 <= i < |Arranged(seen)| :: Arranged(seen)[i] in order
  {
    WithoutMembers(order, STANDALONE);
    forall i | 0 <= i < |Arranged(seen)| ensures Arranged(seen)[i] in order {
      assert Arranged(seen)[i] in Arranged(seen);
    }
  }

  lemma KeyIsFiled(seen: seq<Session>, order: seq<Key>, grouped: map<Key, seq<Session>>, key: Key)
    requires Filed(seen, order, grouped) && key in order
    ensures key in grouped && grouped[key] == Members(seen, key)
  {
  }

  lemma GroupsOneMore(sessions: seq<Session>, keys: seq<Key>, i: nat)
    requires i < |keys|
    ensures Groups(sessions, keys[..i + 1]) ==
            Groups(sessions, keys[..i]) + [GroupOf(keys[i], Members(sessions, keys[i]))]
  {
    assert keys[..i + 1][..i] == keys[..i];
  }

  lemma {:induction false} WithoutMembers(keys: seq<Key>, key: Key)
    ensures forall k :: k in Without(keys, key) <==> k in keys && k != key
  {
    if keys != [] {
      WithoutMembers(keys[..|keys| - 1], key);
      assert keys == keys[..|keys| - 1] + [keys[|keys| - 1]];
    }
  }

  // ----- a permutation -----

  ghost predicate Distinct(keys: seq<Key>) {
    forall i, j | 0 <= i < j < |keys| :: keys[i] != keys[j]
  }

  lemma {:induction false} WithoutDistinct(keys: seq<Key>, key: Key)
    requires Distinct(keys)
    ensures Distinct(Without(keys, key))
  {
    if keys == [] { return; }
    var init, last := keys[..|keys| - 1], keys[|keys| - 1];
    WithoutDistinct(init, key);
    WithoutMembers(init, key);
    forall k <- Without(init, key) ensures k != last {
      var i :| 0 <= i < |init| && init[i] == k;
      assert keys[i] != keys[|keys| - 1];
    }
    if last != key { DistinctGrows(Without(init, key), last); }
  }

  lemma DistinctGrows(keys: seq<Key>, key: Key)
    requires Distinct(keys) && forall k <- keys :: k != key
    ensures Distinct(keys + [key])
  {
    forall i | 0 <= i < |keys| ensures keys[i] != key { assert keys[i] in keys; }
  }

  /** Every key of a session appears once. */
  lemma {:induction false} OrderLists(sessions: seq<Session>)
    ensures Distinct(Order(sessions))
    ensures forall key :: key in Order(sessions) <==> exists s <- sessions :: KeyOf(s) == key
  {
    if sessions != [] {
      OrderLists(sessions[..|sessions| - 1]);
      assert sessions == sessions[..|sessions| - 1] + [sessions[|sessions| - 1]];
    }
  }

  lemma ArrangedLists(sessions: seq<Session>)
    ensures Distinct(Arranged(sessions))
    ensures forall key :: key in Arranged(sessions) <==> exists s <- sessions :: KeyOf(s) == key
  {
    OrderLists(sessions);
    WithoutMembers(Order(sessions), STANDALONE);
    WithoutDistinct(Order(sessions), STANDALONE);
    forall k <- Without(Order(sessions), STANDALONE) ensures k != STANDALONE {}
  }

  lemma {:induction false} MembersCount(sessions: seq<Session>, key: Key, x: Session)
    ensures multiset(Members(sessions, key))[x] == if KeyOf(x) == key then multiset(sessions)[x] else 0
  {
    if sessions != [] {
      MembersCount(sessions[..|sessions| - 1], key, x);
      assert sessions == sessions[..|sessions| - 1] + [sessions[|sessions| - 1]];
    }
  }

  lemma {:induction false} PinCount(s: seq<Session>)
    ensures multiset(WithPin(s, true)) + multiset(WithPin(s, false)) == multiset(s)
  {
    if s != [] {
      PinCount(s[..|s| - 1]);
      assert s == s[..|s| - 1] + [s[|s| - 1]];
    }
  }

  function Flattened(groups: seq<Group>): seq<Session> {
    if groups == [] then [] else Flattened(groups[..|groups| - 1]) + groups[|groups| - 1].sessions
  }

  lemma GroupCount(sessions: seq<Session>, key: Key, x: Session)
    ensures multiset(Sorted(Members(sessions, key)))[x] == if KeyOf(x) == key then multiset(sessions)[x] else 0
  {
    MembersCount(sessions, key, x);
    SortedIsPinnedFirst(Members(sessions, key));
    PinCount(Members(sessions, key));
  }

  lemma LastIsNew(keys: seq<Key>)
    requires Distinct(keys) && keys != []
    ensures keys[|keys| - 1] !in keys[..|keys| - 1] && Distinct(keys[..|keys| - 1])
  {
  }

  function Buckets(sessions: seq<Session>, keys: seq<Key>): seq<Session> {
    if keys == [] then []
    else Buckets(sessions, keys[..|keys| - 1]) + Sorted(Members(sessions, keys[|keys| - 1]))
  }

  lemma {:induction false} FlattenedBuckets(sessions: seq<Session>, keys: seq<Key>)
    ensures Flattened(Groups(sessions, keys)) == Buckets(sessions, keys)
  {
    if keys != [] {
      var init, last := keys[..|keys| - 1], keys[|keys| - 1];
      FlattenedBuckets(sessions, init);
      FlattenedOneMore(Groups(sessions, init), GroupOf(last, Members(sessions, last)));
    }
  }

  lemma FlattenedOneMore(groups: seq<Group>, g: Group)
    ensures Flattened(groups + [g]) == Flattened(groups) + g.sessions
  {
    assert (groups + [g])[..|groups|] == groups;
  }

  lemma {:induction false} BucketsCount(sessions: seq<Session>, keys: seq<Key>, x: Session)
    requires Distinct(keys)
    ensures multiset(Buckets(sessions, keys))[x] == if KeyOf(x) in keys then multiset(sessions)[x] else 0
  {
    if keys == [] { return; }
    var init, last := keys[..|keys| - 1], keys[|keys| - 1];
    LastIsNew(keys);
    BucketsCount(sessions, init, x);
    GroupCount(sessions, last, x);
    assert keys == init + [last];
  }

  /** The groups hold every session of the list, and each as often as the list does. */
  lemma GroupsArePermutation(sessions: seq<Session>)
    ensures multiset(Flattened(Projected(sessions))) == multiset(sessions)
  {
    ArrangedLists(sessions);
    FlattenedBuckets(sessions, Arranged(sessions));
    forall x ensures multiset(Flattened(Projected(sessions)))[x] == multiset(sessions)[x] {
      BucketsCount(sessions, Arranged(sessions), x);
      assert x in sessions || multiset(sessions)[x] == 0;
    }
  }

  // ----- the order of the groups -----

  /** Where a key first appears. */
  function First(sessions: seq<Session>, key: Key): (r: nat)
    ensures r <= |sessions|
    ensures r < |sessions| ==> KeyOf(sessions[r]) == key
    ensures forall i | 0 <= i < r :: KeyOf(sessions[i]) != key
  {
    if sessions == [] || KeyOf(sessions[0]) == key then 0 else First(sessions[1..], key) + 1
  }

  lemma {:induction false} OrderIsFirstAppearance(sessions: seq<Session>, i: nat, j: nat)
    requires i < j < |Order(sessions)|
    ensures First(sessions, Order(sessions)[i]) < First(sessions, Order(sessions)[j])
  {
    var init, key := sessions[..|sessions| - 1], KeyOf(sessions[|sessions| - 1]);
    OrderLists(init);
    if j < |Order(init)| {
      OrderIsFirstAppearance(init, i, j);
      FirstStays(sessions, Order(init)[i]);
      FirstStays(sessions, Order(init)[j]);
    } else {
      FirstStays(sessions, Order(init)[i]);
      forall t | 0 <= t < |init| ensures KeyOf(sessions[t]) != key { assert init[t] in init; }
    }
  }

  lemma FirstStays(sessions: seq<Session>, key: Key)
    requires sessions != [] && key in Order(sessions[..|sessions| - 1])
    ensures First(sessions, key) == First(sessions[..|sessions| - 1], key) < |sessions| - 1
  {
    var init := sessions[..|sessions| - 1];
    OrderLists(init);
    var s :| s in init && KeyOf(s) == key;
    var i :| 0 <= i < |init| && init[i] == s;
    var f, g := First(init, key), First(sessions, key);
    assert f <= i && KeyOf(sessions[f]) == key;
    assert g <= f;
    assert KeyOf(init[g]) == key;
  }

  lemma {:induction false} GroupsAt(sessions: seq<Session>, keys: seq<Key>, i: nat)
    requires i < |keys|
    ensures |Groups(sessions, keys)| == |keys|
    ensures Groups(sessions, keys)[i] == GroupOf(keys[i], Members(sessions, keys[i]))
  {
    if i < |keys| - 1 {
      GroupsAt(sessions, keys[..|keys| - 1], i);
    } else if |keys| > 1 {
      GroupsAt(sessions, keys[..|keys| - 1], 0);
    }
  }

  lemma ProjectedAt(sessions: seq<Session>, i: nat)
    requires i < |Projected(sessions)|
    ensures |Projected(sessions)| == |Arranged(sessions)|
    ensures Projected(sessions)[i] == GroupOf(Arranged(sessions)[i], Members(sessions, Arranged(sessions)[i]))
    ensures exists s <- sessions :: KeyOf(s) == Arranged(sessions)[i]
  {
    var keys := Arranged(sessions);
    assert |keys| > 0;
    GroupsAt(sessions, keys, 0);
    GroupsAt(sessions, keys, i);
    ArrangedLists(sessions);
    assert keys[i] in keys;
  }

  lemma {:induction false} WithoutKeepsOrder(sessions: seq<Session>, keys: seq<Key>, key: Key, i: nat, j: nat)
    requires forall a, b | 0 <= a < b < |keys| :: First(sessions, keys[a]) < First(sessions, keys[b])
    requires i < j < |Without(keys, key)|
    ensures First(sessions, Without(keys, key)[i]) < First(sessions, Without(keys, key)[j])
  {
    var init := keys[..|keys| - 1];
    if j < |Without(init, key)| {
      WithoutKeepsOrder(sessions, init, key, i, j);
    } else {
      WithoutMembers(init, key);
      assert Without(init, key)[i] in Without(init, key);
      var a :| 0 <= a < |init| && init[a] == Without(init, key)[i];
      assert keys[a] == init[a];
    }
  }

  ghost predicate Stands(sessions: seq<Session>, groups: seq<Group>, i: nat)
    requires i < |groups|
  {
    var g := groups[i];
    && g.sessions == WithPin(Members(sessions, g.key), true) + WithPin(Members(sessions, g.key), false)
    && g.sessions != []
    && g.standalone == (g.key == STANDALONE)
    && (g.standalone ==> i == |groups| - 1)
    && forall h: nat | h < i && !g.standalone :: First(sessions, groups[h].key) < First(sessions, g.key)
  }

  /** Each group is its sessions, pinned first and each part in list order; groups stand in the order their first
    * session does, except that the standalone group is last. */
  lemma GroupsStandInOrder(sessions: seq<Session>)
    ensures forall i: nat | i < |Projected(sessions)| :: Stands(sessions, Projected(sessions), i)
  {
    forall i: nat | i < |Projected(sessions)| ensures Stands(sessions, Projected(sessions), i) {
      GroupStands(sessions, i);
    }
  }

  lemma GroupStands(sessions: seq<Session>, i: nat)
    requires i < |Projected(sessions)|
    ensures Stands(sessions, Projected(sessions), i)
  {
    var keys, groups := Arranged(sessions), Projected(sessions);
    ProjectedAt(sessions, i);
    var order := Order(sessions);
    var named := Without(order, STANDALONE);
    WithoutMembers(order, STANDALONE);
    SortedIsPinnedFirst(Members(sessions, keys[i]));
    var s :| s in sessions && KeyOf(s) == keys[i];
    MembersCount(sessions, keys[i], s);
    PinCount(Members(sessions, keys[i]));
    assert i < |named| ==> named[i] in named;
    forall a, b | 0 <= a < b < |order| ensures First(sessions, order[a]) < First(sessions, order[b]) {
      OrderIsFirstAppearance(sessions, a, b);
    }
    forall h: nat | h < i && !groups[i].standalone ensures First(sessions, groups[h].key) < First(sessions, keys[i]) {
      ProjectedAt(sessions, h);
      WithoutKeepsOrder(sessions, order, STANDALONE, h, i);
    }
  }

  // ----- the standalone group -----

  /** A session counts as standalone without a workspace, but also when its workspace's path is only slashes or is
    * itself called `standalone`. */
  lemma StandaloneExactly(s: Session)
    ensures KeyOf(s) == STANDALONE <==>
            s.workspaceId.None? || Trimmed(s.workspaceId.value) == "" || Trimmed(s.workspaceId.value) == "standalone"
  {
    if s.workspaceId.Some? { assert Key(Trimmed(s.workspaceId.value)).text == Trimmed(s.workspaceId.value); }
  }

  /** A group lists exactly the sessions of its key. */
  lemma GroupListsExactly(sessions: seq<Session>, i: nat, s: Session)
    requires i < |Projected(sessions)|
    ensures s in Projected(sessions)[i].sessions <==> s in sessions && KeyOf(s) == Projected(sessions)[i].key
  {
    ProjectedAt(sessions, i);
    GroupCount(sessions, Arranged(sessions)[i], s);
    var group := Projected(sessions)[i];
    assert s in group.sessions <==> multiset(group.sessions)[s] > 0;
    assert s in sessions <==> multiset(sessions)[s] > 0;
  }

  ghost predicate ListedAsStandalone(sessions: seq<Session>, s: Session) {
    exists i ::
      0 <= i < |Projected(sessions)| && Projected(sessions)[i].standalone && s in Projected(sessions)[i].sessions
  }

  /** Which sessions of a list are shown in the standalone group: those without a workspace, but also those whose
    * workspace's path is only slashes or is itself called `standalone`. */
  lemma StandaloneListsExactly(sessions: seq<Session>, s: Session)
    requires s in sessions
    ensures ListedAsStandalone(sessions, s) <==>
            s.workspaceId.None? || Trimmed(s.workspaceId.value) == "" || Trimmed(s.workspaceId.value) == "standalone"
  {
    StandaloneExactly(s);
    if ListedAsStandalone(sessions, s) {
      var i :|
        0 <= i < |Projected(sessions)| && Projected(sessions)[i].standalone && s in Projected(sessions)[i].sessions;
      GroupListsExactly(sessions, i, s);
      ProjectedAt(sessions, i);
    }
    if KeyOf(s) == STANDALONE {
      ArrangedLists(sessions);
      var keys := Arranged(sessions);
      assert STANDALONE in keys;
      var i :| 0 <= i < |keys| && keys[i] == STANDALONE;
      GroupsAt(sessions, keys, i);
      GroupListsExactly(sessions, i, s);
    }
  }

  /** The path of a session's workspace without the slashes at its end; none for a session without a workspace, and for
    * a path that is only slashes or `standalone`. */
  function ProjectOf(s: Session): Option<string> {
    if s.workspaceId.None? || Trimmed(s.workspaceId.value) == "" || Trimmed(s.workspaceId.value) == "standalone"
    then None else Some(Trimmed(s.workspaceId.value))
  }

  ghost predicate ShareAGroup(sessions: seq<Session>, s: Session, t: Session) {
    exists i :: && 0 <= i < |Projected(sessions)|
                && s in Projected(sessions)[i].sessions && t in Projected(sessions)[i].sessions
  }

  lemma SameKeyExactly(s: Session, t: Session)
    ensures KeyOf(s) == KeyOf(t) <==> ProjectOf(s) == ProjectOf(t)
  {
    StandaloneExactly(s);
    StandaloneExactly(t);
  }

  /** Two sessions of a list are shown in one group exactly if they have the same project, or both have none. */
  lemma ShareAGroupExactly(sessions: seq<Session>, s: Session, t: Session)
    requires s in sessions && t in sessions
    ensures ShareAGroup(sessions, s, t) <==> ProjectOf(s) == ProjectOf(t)
  {
    SameKeyExactly(s, t);
    if ShareAGroup(sessions, s, t) {
      var i :| && 0 <= i < |Projected(sessions)|
               && s in Projected(sessions)[i].sessions && t in Projected(sessions)[i].sessions;
      GroupListsExactly(sessions, i, s);
      GroupListsExactly(sessions, i, t);
    }
    if KeyOf(s) == KeyOf(t) {
      ArrangedLists(sessions);
      var keys := Arranged(sessions);
      assert KeyOf(s) in keys;
      var i :| 0 <= i < |keys| && keys[i] == KeyOf(s);
      GroupsAt(sessions, keys, i);
      GroupListsExactly(sessions, i, s);
      GroupListsExactly(sessions, i, t);
    }
  }

  /** A session with a workspace that is listed among those without one. */
  lemma WorkspaceShownAsStandalone()
    ensures Projected([Session("a", Some("standalone/"), false)]) ==
            [Group(STANDALONE, true, "Standalone sessions", [Session("a", Some("standalone/"), false)])]
  {
    var s := Session("a", Some("standalone/"), false);
    assert "standalone/"[..10] == "standalone";
    assert KeyOf(s) == STANDALONE;
    assert [s][..0] == [];
    assert Order([s]) == [STANDALONE];
    assert [STANDALONE][..0] == [];
    assert Without([STANDALONE], STANDALONE) == [];
    assert Arranged([s]) == [STANDALONE];
    assert Members([s], STANDALONE) == [s];
    assert Sorted([s]) == [s];
  }

  predicate IsLastSegment(title: string, path: string) {
    && title != "" && '/' !in title && |title| <= |path| && path[|path| - |title|..] == title
    && (|title| < |path| ==> path[|path| - |title| - 1] == '/')
  }

  lemma LabelIsLastSegment(path: string)
    requires path != "" && path[|path| - 1] != '/'
    ensures IsLastSegment(Label(path), path)
  {
  }

  lemma KeyIsTrimmed(s: Session)
    requires KeyOf(s) != STANDALONE
    ensures KeyOf(s).text != "" && KeyOf(s).text[|KeyOf(s).text| - 1] != '/'
  {
  }

  /** The title of a project group is the last segment of its path. */
  lemma TitleIsTheLastSegment(sessions: seq<Session>)
    ensures forall i | 0 <= i < |Projected(sessions)| && !Projected(sessions)[i].standalone ::
              IsLastSegment(Projected(sessions)[i].title, Projected(sessions)[i].key.text)
  {
    forall i | 0 <= i < |Projected(sessions)| && !Projected(sessions)[i].standalone
      ensures IsLastSegment(Projected(sessions)[i].title, Projected(sessions)[i].key.text)
    {
      ProjectedAt(sessions, i);
      var key := Arranged(sessions)[i];
      var s :| s in sessions && KeyOf(s) == key;
      KeyIsTrimmed(s);
      LabelIsLastSegment(key.text);
    }
  }
}
