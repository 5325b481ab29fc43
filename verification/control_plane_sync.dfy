/** The control plane's sync set and the execution side's projection of it: where every history of
  * full and incremental deliveries ends up once a full delivery succeeds. */
module ControlPlaneSync {
  import opened Wrappers

  /** The fields of an object stand in canonical key order, so that equal objects are equal values. */
  datatype Json = Leaf(text: string) | List(items: seq<Json>) | Object(fields: seq<Field>)
  datatype Field = Field(key: string, value: Json)

  datatype Key = Key(kind: string, id: string)
  datatype Item = Item(key: Key, version: int, body: seq<Field>)

  /** The content digest, taken to be injective: it stands for exactly what it digests. */
  datatype Digest = Digest(key: Key, version: int, body: seq<Field>)

  datatype Entry = Entry(key: Key, version: int, digest: Digest)
  datatype Record = Record(version: int, digest: Digest, body: seq<Field>)

  datatype Error = KindUnsupported | SecretForbidden | BodyMissing | Mismatch

  function DigestOf(item: Item): Digest {
    Digest(item.key, item.version, item.body)
  }

  function EntryOf(item: Item): Entry {
    Entry(item.key, item.version, DigestOf(item))
  }

  function RecordOf(item: Item): Record {
    Record(item.version, DigestOf(item), item.body)
  }

  // ----- validation -----

  /** The letter a character stands for when case is ignored: besides the capitals, the two Turkish letters i, the long
    * s and the Kelvin sign stand for a plain letter. */
  function Folded(c: char): char {
    if 'A' <= c <= 'Z' then c - 'A' + 'a'
    else if c == '\U{130}' || c == '\U{131}' then 'i'
    else if c == '\U{17f}' then 's'
    else if c == '\U{212a}' then 'k'
    else c
  }

  function Lower(s: string): string {
    seq(|s|, i requires 0 <= i < |s| => Folded(s[i]))
  }

  predicate StandsAt(s: string, part: string, i: nat) {
    i + |part| <= |s| && s[i..i + |part|] == part
  }

  predicate Contains(s: string, part: string) {
    exists i | 0 <= i <= |s| :: StandsAt(s, part, i)
  }

  const SECRET_PARTS: seq<string> :=
    ["secret", "token", "apikey", "api_key", "api-key", "password", "privatekey", "private_key", "private-key",
     "authorization", "cookie", "credential_value"]

  predicate SecretShaped(key: string) {
    exists part <- SECRET_PARTS :: Contains(Lower(key), part)
  }

  predicate CleanFields(fields: seq<Field>)
    decreases fields
  {
    forall f <- fields :: !SecretShaped(f.key) && Clean(f.value)
  }

  predicate Clean(j: Json)
    decreases j
  {
    match j
    case Leaf(_) => true
    case List(items) => forall x <- items :: Clean(x)
    case Object(fields) => forall f <- fields :: !SecretShaped(f.key) && Clean(f.value)
  }

  function Validate(item: Item): Option<Error> {
    if item.key.kind !in {"profile", "provider-model", "workspace"} then Some(KindUnsupported)
    else if !CleanFields(item.body) then Some(SecretForbidden)
    else None
  }

  /** The keys of an object at any depth. */
  function KeysWithin(fields: seq<Field>): set<string>
    decreases fields
  {
    if fields == [] then {}
    else {fields[0].key} + KeysOfValue(fields[0].value) + KeysWithin(fields[1..])
  }

  function KeysOfValue(j: Json): set<string>
    decreases j
  {
    match j
    case Leaf(_) => {}
    case List(items) => KeysOfItems(items)
    case Object(fields) => KeysWithin(fields)
  }

  function KeysOfItems(items: seq<Json>): set<string>
    decreases items
  {
    if items == [] then {} else KeysOfValue(items[0]) + KeysOfItems(items[1..])
  }

  ghost predicate SpellsAt(key: string, part: string, i: int) {
    0 <= i && i + |part| <= |key| && forall k | 0 <= k < |part| :: Folded(key[i + k]) == part[k]
  }

  ghost predicate SpellsPart(key: string, part: string) {
    exists i :: SpellsAt(key, part, i)
  }

  /** The key spells one of the secret words somewhere, letter by letter and whatever the case. */
  ghost predicate Spells(key: string) {
    exists part <- SECRET_PARTS :: SpellsPart(key, part)
  }

  lemma StandsAtExactly(key: string, part: string, i: nat)
    ensures StandsAt(Lower(key), part, i) <==> SpellsAt(key, part, i)
  {
    if i + |part| <= |key| {
      var piece := Lower(key)[i..i + |part|];
      forall k | 0 <= k < |part| ensures piece[k] == Folded(key[i + k]) {}
    }
  }

  lemma ContainsExactly(key: string, part: string)
    ensures Contains(Lower(key), part) <==> SpellsPart(key, part)
  {
    forall i: nat | i <= |key| ensures StandsAt(Lower(key), part, i) <==> SpellsAt(key, part, i) {
      StandsAtExactly(key, part, i);
    }
    if SpellsPart(key, part) {
      var i :| SpellsAt(key, part, i);
      assert StandsAt(Lower(key), part, i);
    }
  }

  lemma SpellsExactly(key: string)
    ensures SecretShaped(key) <==> Spells(key)
  {
    forall part ensures Contains(Lower(key), part) <==> SpellsPart(key, part) { ContainsExactly(key, part); }
  }

  lemma {:induction false} CleanFieldsExactly(fields: seq<Field>)
    ensures CleanFields(fields) <==> forall key <- KeysWithin(fields) :: !Spells(key)
    decreases fields
  {
    if fields == [] { return; }
    assert fields == [fields[0]] + fields[1..];
    SpellsExactly(fields[0].key);
    CleanExactly(fields[0].value);
    CleanFieldsExactly(fields[1..]);
    assert CleanFields(fields) <==>
        !SecretShaped(fields[0].key) && Clean(fields[0].value) && CleanFields(fields[1..]);
  }

  lemma {:induction false} CleanExactly(j: Json)
    ensures Clean(j) <==> forall key <- KeysOfValue(j) :: !Spells(key)
    decreases j
  {
    match j
    case Leaf(_) =>
    case List(items) => CleanItemsExactly(items);
    case Object(fields) =>
      CleanFieldsExactly(fields);
      assert Clean(j) <==> CleanFields(fields);
  }

  lemma {:induction false} CleanItemsExactly(items: seq<Json>)
    ensures (forall x <- items :: Clean(x)) <==> forall key <- KeysOfItems(items) :: !Spells(key)
    decreases items
  {
    if items == [] { return; }
    assert items == [items[0]] + items[1..];
    CleanExactly(items[0]);
    CleanItemsExactly(items[1..]);
  }

  /** A record is refused for its kind if that is none of the three, else for a secret if a key of its body spells one
    * of the secret words, at whatever depth, and not otherwise. */
  lemma RefusedExactly(item: Item)
    ensures Validate(item) == Some(KindUnsupported) <==>
            item.key.kind != "profile" && item.key.kind != "provider-model" && item.key.kind != "workspace"
    ensures Validate(item) == Some(SecretForbidden) <==>
            Validate(item) != Some(KindUnsupported) && exists key <- KeysWithin(item.body) :: Spells(key)
    ensures Validate(item).None? || Validate(item) == Some(KindUnsupported) || Validate(item) == Some(SecretForbidden)
  {
    CleanFieldsExactly(item.body);
  }

  /** A key below a list below an object, in mixed case. */
  lemma NestedSecretIsRefused(id: string, value: Json)
    ensures Validate(Item(Key("profile", id), 1, [Field("env", List([Object([Field("MyApiKey", value)])]))])) ==
            Some(SecretForbidden)
  {
    var inner := [Field("MyApiKey", value)];
    var body := [Field("env", List([Object(inner)]))];
    assert KeysWithin(inner) == {"MyApiKey"} + KeysOfValue(value) + KeysWithin([]) by { assert inner[1..] == []; }
    assert KeysOfItems([Object(inner)]) == KeysOfValue(Object(inner)) + KeysOfItems([]) by {
      assert [Object(inner)][1..] == [];
    }
    assert "MyApiKey" in KeysWithin(body);
    var key, part := "MyApiKey", SECRET_PARTS[2];
    assert key[2] == 'A' && key[3] == 'p' && key[4] == 'i' && key[5] == 'K' && key[6] == 'e' && key[7] == 'y';
    assert part == "apikey" && SpellsAt(key, part, 2);
    assert SpellsPart(key, part) && Spells(key);
    RefusedExactly(Item(Key("profile", id), 1, body));
  }

  // ----- the manifest's order -----

  predicate StringBefore(a: string, b: string) {
    if b == [] then false else if a == [] then true
    else a[0] < b[0] || (a[0] == b[0] && StringBefore(a[1..], b[1..]))
  }

  lemma {:induction false} StringOrder(a: string, b: string)
    ensures a == b || StringBefore(a, b) || StringBefore(b, a)
    ensures !(StringBefore(a, b) && StringBefore(b, a)) && !StringBefore(a, a)
    decreases |a|
  {
    if a != [] {
      StringOrder(a[1..], a[1..]);
      if b != [] {
        StringOrder(a[1..], b[1..]);
        assert a == [a[0]] + a[1..] && b == [b[0]] + b[1..];
      }
    }
  }

  lemma {:induction false} StringTransitive(a: string, b: string, c: string)
    requires StringBefore(a, b) && StringBefore(b, c)
    ensures StringBefore(a, c)
    decreases |a|
  {
    if a != [] && a[0] == b[0] == c[0] { StringTransitive(a[1..], b[1..], c[1..]); }
  }

  predicate Before(a: Key, b: Key) {
    StringBefore(a.kind, b.kind) || (a.kind == b.kind && StringBefore(a.id, b.id))
  }

  /** At the first place where the two differ, the first is at its end or has the smaller character. */
  ghost predicate Precedes(a: string, b: string) {
    exists i :: && 0 <= i <= |a| && i < |b| && a[..i] == b[..i] && (i == |a| || a[i] < b[i])
  }

  lemma {:induction false} StringBeforeExactly(a: string, b: string)
    ensures StringBefore(a, b) <==> Precedes(a, b)
    decreases |a|
  {
    if b == [] { return; }
    if a == [] {
      assert a[..0] == b[..0];
      return;
    }
    StringBeforeExactly(a[1..], b[1..]);
    if a[0] < b[0] { assert a[..0] == b[..0]; }
    if a[0] == b[0] && Precedes(a[1..], b[1..]) {
      var i :| && 0 <= i <= |a[1..]| && i < |b[1..]| && a[1..][..i] == b[1..][..i]
               && (i == |a[1..]| || a[1..][i] < b[1..][i]);
      assert a[..i + 1] == [a[0]] + a[1..][..i] && b[..i + 1] == [b[0]] + b[1..][..i];
    }
    if Precedes(a, b) {
      var i :| 0 <= i <= |a| && i < |b| && a[..i] == b[..i] && (i == |a| || a[i] < b[i]);
      if i > 0 {
        assert a[0] == a[..i][0] == b[..i][0] == b[0];
        assert a[1..][..i - 1] == a[..i][1..] && b[1..][..i - 1] == b[..i][1..];
      }
    }
  }

  /** The manifest's lines of distinct keys stand by kind, and those of one kind by id, both character by character. */
  lemma SortedByKindThenId(items: seq<Item>, i: nat, j: nat)
    requires DistinctKeys(items) && i < j < |SortedEntries(items)|
    ensures var a, b := SortedEntries(items)[i].key, SortedEntries(items)[j].key;
            Precedes(a.kind, b.kind) || (a.kind == b.kind && Precedes(a.id, b.id))
  {
    SortedAscends(items);
    var a, b := SortedEntries(items)[i].key, SortedEntries(items)[j].key;
    assert Before(a, b);
    StringBeforeExactly(a.kind, b.kind);
    StringBeforeExactly(a.id, b.id);
  }

  lemma KeyOrder(a: Key, b: Key)
    ensures a == b || Before(a, b) || Before(b, a)
    ensures !(Before(a, b) && Before(b, a)) && !Before(a, a)
  {
    StringOrder(a.kind, b.kind);
    StringOrder(a.id, b.id);
    StringOrder(a.kind, a.kind);
    StringOrder(a.id, a.id);
  }

  lemma KeyTransitive(a: Key, b: Key, c: Key)
    requires Before(a, b) && Before(b, c)
    ensures Before(a, c)
  {
    if StringBefore(a.kind, b.kind) && StringBefore(b.kind, c.kind) { StringTransitive(a.kind, b.kind, c.kind); }
    if StringBefore(a.id, b.id) && StringBefore(b.id, c.id) { StringTransitive(a.id, b.id, c.id); }
  }

  /** Stable insertion: after every entry whose key is not greater. */
  function Insert(sorted: seq<Entry>, e: Entry): seq<Entry> {
    if sorted == [] || !Before(e.key, sorted[|sorted| - 1].key) then sorted + [e]
    else Insert(sorted[..|sorted| - 1], e) + [sorted[|sorted| - 1]]
  }

  function SortedEntries(items: seq<Item>): seq<Entry> {
    if items == [] then [] else Insert(SortedEntries(items[..|items| - 1]), EntryOf(items[|items| - 1]))
  }

  /** `plan_deployment`: the first invalid record refuses the plan. */
  function Plan(items: seq<Item>): Result<seq<Entry>, Error> {
    match FirstInvalid(items)
    case Some(error) => Err(error)
    case None => Ok(SortedEntries(items))
  }

  function FirstInvalid(items: seq<Item>): (r: Option<Error>)
    ensures r.None? <==> forall item <- items :: Validate(item).None?
  {
    if items == [] then None
    else if Validate(items[0]).Some? then Validate(items[0])
    else
      assert items == [items[0]] + items[1..];
      FirstInvalid(items[1..])
  }

  lemma {:induction false} InsertMembers(sorted: seq<Entry>, e: Entry)
    ensures forall x :: x in Insert(sorted, e) <==> x in sorted || x == e
  {
    if sorted != [] && Before(e.key, sorted[|sorted| - 1].key) {
      InsertMembers(sorted[..|sorted| - 1], e);
      assert sorted == sorted[..|sorted| - 1] + [sorted[|sorted| - 1]];
    }
  }

  lemma {:induction false} SortedMembers(items: seq<Item>)
    ensures forall x :: x in SortedEntries(items) <==> exists item <- items :: x == EntryOf(item)
  {
    if items != [] {
      var before, last := items[..|items| - 1], items[|items| - 1];
      SortedMembers(before);
      InsertMembers(SortedEntries(before), EntryOf(last));
      assert items == before + [last];
    }
  }

  ghost predicate Ascending(entries: seq<Entry>) {
    forall i, j | 0 <= i < j < |entries| :: Before(entries[i].key, entries[j].key)
  }

  lemma {:induction false} InsertAscends(sorted: seq<Entry>, e: Entry)
    requires Ascending(sorted) && forall x <- sorted :: x.key != e.key
    ensures Ascending(Insert(sorted, e))
  {
    if sorted == [] { return; }
    var before, last := sorted[..|sorted| - 1], sorted[|sorted| - 1];
    KeyOrder(e.key, last.key);
    if Before(e.key, last.key) {
      InsertAscends(before, e);
      InsertMembers(before, e);
      forall x <- Insert(before, e) ensures Before(x.key, last.key) {
        if x != e { var i :| 0 <= i < |before| && before[i] == x; assert sorted[i] == x; }
      }
    } else {
      forall x <- sorted ensures Before(x.key, e.key) {
        var i :| 0 <= i < |sorted| && sorted[i] == x;
        if i < |sorted| - 1 { KeyTransitive(x.key, last.key, e.key); }
      }
    }
  }

  ghost predicate DistinctKeys(items: seq<Item>) {
    forall i, j | 0 <= i < j < |items| :: items[i].key != items[j].key
  }

  lemma {:induction false} SortedAscends(items: seq<Item>)
    requires DistinctKeys(items)
    ensures Ascending(SortedEntries(items))
  {
    if items != [] {
      var before, last := items[..|items| - 1], items[|items| - 1];
      SortedAscends(before);
      SortedMembers(before);
      forall x <- SortedEntries(before) ensures x.key != last.key {
        var item :| item in before && x == EntryOf(item);
        var i :| 0 <= i < |before| && before[i] == item;
        assert items[i].key != items[|items| - 1].key;
      }
      InsertAscends(SortedEntries(before), EntryOf(last));
    }
  }

  /** An ascending sequence is determined by its members. */
  lemma {:induction false} AscendingUnique(a: seq<Entry>, b: seq<Entry>)
    requires Ascending(a) && Ascending(b) && forall x :: x in a <==> x in b
    ensures a == b
  {
    assert (|b| == 0 || b[0] in b) && (|a| == 0 || a[0] in a);
    if a != [] {
      var x, y := a[|a| - 1], b[|b| - 1];
      assert x in b && y in a;
      KeyOrder(x.key, y.key);
      assert x == y;
      LastIsGreatest(a, y);
      var p, q := a[..|a| - 1], b[..|b| - 1];
      assert a == p + [x] && b == q + [y];
      forall e ensures e in p <==> e in q { InitMembers(a, e); InitMembers(b, e); }
      AscendingUnique(p, q);
    }
  }

  lemma LastIsGreatest(a: seq<Entry>, x: Entry)
    requires Ascending(a) && x in a
    ensures x == a[|a| - 1] || Before(x.key, a[|a| - 1].key)
  {
  }

  lemma InitMembers(a: seq<Entry>, e: Entry)
    requires a != [] && Ascending(a)
    ensures e in a[..|a| - 1] <==> e in a && e != a[|a| - 1]
  {
    KeyOrder(a[|a| - 1].key, a[|a| - 1].key);
    assert a == a[..|a| - 1] + [a[|a| - 1]];
  }

  /** For records with distinct keys the manifest does not depend on the order they come in. */
  lemma ManifestIgnoresOrder(a: seq<Item>, b: seq<Item>)
    requires DistinctKeys(a) && DistinctKeys(b) && forall item :: item in a <==> item in b
    requires Plan(a).Ok?
    ensures Plan(b) == Plan(a)
  {
    SortedAscends(a);
    SortedAscends(b);
    SortedMembers(a);
    SortedMembers(b);
    AscendingUnique(SortedEntries(a), SortedEntries(b));
  }

  // ----- deliveries -----

  type Records = map<Key, Record>

  datatype Progress = Progress(records: Records, applied: seq<Key>, untouched: seq<Key>, counts: map<Key, nat>)
  datatype Report = Report(applied: seq<Key>, untouched: seq<Key>, removed: set<Key>, counts: map<Key, nat>)
  datatype Outcome = Outcome(records: Records, answer: Result<Report, Error>)

  /** The bodies that came along: of two with the same key the later one counts. */
  function ByKey(items: seq<Item>): map<Key, Item> {
    if items == [] then map[] else ByKey(items[..|items| - 1])[items[|items| - 1].key := items[|items| - 1]]
  }

  predicate Holds(records: Records, e: Entry) {
    e.key in records && records[e.key].version == e.version && records[e.key].digest == e.digest
  }

  /** Why a line cannot be applied with the bodies that came along. */
  function Fault(e: Entry, bodies: map<Key, Item>): Option<Error> {
    if e.key !in bodies then Some(BodyMissing)
    else if Validate(bodies[e.key]).Some? then Validate(bodies[e.key])
    else if DigestOf(bodies[e.key]) != e.digest || bodies[e.key].version != e.version then Some(Mismatch)
    else None
  }

  function Write(p: Progress, e: Entry, item: Item): Progress {
    var counts := if e.key in p.counts then p.counts else p.counts[e.key := 0];
    if Holds(p.records, e) then p.(untouched := p.untouched + [e.key], counts := counts)
    else Progress(p.records[e.key := Record(e.version, e.digest, item.body)], p.applied + [e.key], p.untouched,
                  counts[e.key := counts[e.key] + 1])
  }

  /** The lines of a manifest taken in order, up to the first one that cannot be applied. */
  function Deliver(before: Records, entries: seq<Entry>, bodies: map<Key, Item>): (Progress, Option<Error>) {
    if entries == [] then (Progress(before, [], [], map[]), None)
    else
      var (p, error) := Deliver(before, entries[..|entries| - 1], bodies);
      var e := entries[|entries| - 1];
      if error.Some? then (p, error)
      else if Fault(e, bodies).Some? then (p, Fault(e, bodies))
      else (Write(p, e, bodies[e.key]), None)
  }

  function KeysOf(entries: seq<Entry>): set<Key> {
    set e <- entries :: e.key
  }

  function Applied(before: Records, entries: seq<Entry>, items: seq<Item>): Outcome {
    var (p, error) := Deliver(before, entries, ByKey(items));
    if error.Some? then Outcome(p.records, Err(error.value))
    else
      var absent := p.records.Keys - KeysOf(entries);
      Outcome(p.records - absent, Ok(Report(p.applied, p.untouched, absent, p.counts)))
  }

  function AppliedOne(before: Records, item: Item): (Records, Result<bool, Error>) {
    if Validate(item).Some? then (before, Err(Validate(item).value))
    else if Holds(before, EntryOf(item)) then (before, Ok(false))
    else (before[item.key := RecordOf(item)], Ok(true))
  }

  /** The lines a projection does not hold faithfully. */
  function Problems(records: Records, entries: seq<Entry>): seq<Entry> {
    if entries == [] then []
    else
      var e := entries[|entries| - 1];
      Problems(records, entries[..|entries| - 1]) + if Holds(records, e) then [] else [e]
  }

  class ExecutionSideProjection {
    var records: Records

    constructor ()
      ensures records == map[]
    {
      records := map[];
    }

    method Apply(entries: seq<Entry>, items: seq<Item>) returns (answer: Result<Report, Error>)
      modifies this
      ensures Outcome(records, answer) == Applied(old(records), entries, items)
    {
      ghost var before := records;
      var bodies := Bodies(items);
      var applied, untouched, counts, seen := [], [], map[], {};
      for i := 0 to |entries|
        invariant Deliver(before, entries[..i], bodies) == (Progress(records, applied, untouched, counts), None)
        invariant seen == KeysOf(entries[..i])
      {
        var e := entries[i];
        KeysOneMore(entries, i);
        seen := seen + {e.key};
        var fault := Fault(e, bodies);
        if fault.Some? {
          FaultIsFinal(before, entries, bodies, i);
          return Err(fault.value);
        }
        DeliverOneMore(before, entries, bodies, i);
        applied, untouched, counts := Put(e, bodies[e.key], applied, untouched, counts);
      }
      assert entries[..|entries|] == entries;
      var removed := RemoveAbsent(seen);
      answer := Ok(Report(applied, untouched, removed, counts));
    }

    /** One line that can be applied: the record is rewritten unless the line is held. */
    method Put(e: Entry, item: Item, applied0: seq<Key>, untouched0: seq<Key>, counts0: map<Key, nat>)
      returns (applied: seq<Key>, untouched: seq<Key>, counts: map<Key, nat>)
      modifies this
      ensures Progress(records, applied, untouched, counts) ==
              Write(Progress(old(records), applied0, untouched0, counts0), e, item)
    {
      applied, untouched, counts := applied0, untouched0, counts0;
      if e.key !in counts { counts := counts[e.key := 0]; }
      if Holds(records, e) {
        untouched := untouched + [e.key];
      } else {
        records := records[e.key := Record(e.version, e.digest, item.body)];
        applied := applied + [e.key];
        counts := counts[e.key := counts[e.key] + 1];
      }
    }

    static method Bodies(items: seq<Item>) returns (bodies: map<Key, Item>)
      ensures bodies == ByKey(items)
    {
      bodies := map[];
      for i := 0 to |items|
        invariant bodies == ByKey(items[..i])
      {
        bodies := bodies[items[i].key := items[i]];
        assert items[..i + 1][..i] == items[..i];
      }
      assert items[..|items|] == items;
    }

    /** The records no line of the manifest named are dropped. */
    method RemoveAbsent(seen: set<Key>) returns (removed: set<Key>)
      modifies this
      ensures removed == old(records.Keys) - seen && records == old(records) - removed
    {
      ghost var before := records;
      removed := {};
      var rest := records.Keys;
      while rest != {}
        invariant rest <= before.Keys && removed == before.Keys - rest - seen
        invariant records == before - removed
        decreases |rest|
      {
        var key :| key in rest;
        rest := rest - {key};
        if key !in seen {
          records := records - {key};
          removed := removed + {key};
        }
      }
    }

    method ApplyIncremental(item: Item) returns (answer: Result<bool, Error>)
      modifies this
      ensures (records, answer) == AppliedOne(old(records), item)
    {
      var invalid := Validate(item);
      if invalid.Some? { return Err(invalid.value); }
      if item.key in records && records[item.key].version == item.version
         && records[item.key].digest == DigestOf(item) {
        return Ok(false);
      }
      records := records[item.key := Record(item.version, DigestOf(item), item.body)];
      answer := Ok(true);
    }

    method VerifyParity(entries: seq<Entry>) returns (problems: seq<Entry>)
      ensures problems == Problems(records, entries)
      ensures problems == [] <==> forall e <- entries :: Holds(records, e)
    {
      problems := [];
      for i := 0 to |entries|
        invariant problems == Problems(records, entries[..i])
        invariant problems == [] <==> forall j | 0 <= j < i :: Holds(records, entries[j])
      {
        if !Holds(records, entries[i]) { problems := problems + [entries[i]]; }
        assert entries[..i + 1][..i] == entries[..i];
      }
      assert entries[..|entries|] == entries;
    }
  }

  lemma KeysOneMore(entries: seq<Entry>, i: nat)
    requires i < |entries|
    ensures KeysOf(entries[..i + 1]) == KeysOf(entries[..i]) + {entries[i].key}
  {
    assert entries[..i + 1] == entries[..i] + [entries[i]];
  }

  lemma DeliverOneMore(before: Records, entries: seq<Entry>, bodies: map<Key, Item>, i: nat)
    requires i < |entries| && Deliver(before, entries[..i], bodies).1.None? && Fault(entries[i], bodies).None?
    ensures Deliver(before, entries[..i + 1], bodies) ==
            (Write(Deliver(before, entries[..i], bodies).0, entries[i], bodies[entries[i].key]), None)
  {
    var more := entries[..i + 1];
    assert more[..|more| - 1] == entries[..i] && more[|more| - 1] == entries[i];
  }

  lemma {:induction false} FaultIsFinal(before: Records, entries: seq<Entry>, bodies: map<Key, Item>, i: nat)
    requires i < |entries| && Deliver(before, entries[..i], bodies).1.None? && Fault(entries[i], bodies).Some?
    ensures Deliver(before, entries, bodies) == (Deliver(before, entries[..i], bodies).0, Fault(entries[i], bodies))
  {
    var init := entries[..|entries| - 1];
    if i == |entries| - 1 {
      assert entries[..i] == init;
    } else {
      assert init[..i] == entries[..i];
      FaultIsFinal(before, init, bodies, i);
    }
  }

  // ----- what a delivery does -----

  /** The body that came along for a line: the last item of its key, clean and of a known kind, with the line's version
    * and digest. */
  ghost predicate HasItsBody(e: Entry, items: seq<Item>) {
    exists i ::
      && 0 <= i < |items| && items[i].key == e.key && (forall j | i < j < |items| :: items[j].key != e.key)
      && items[i].key.kind in {"profile", "provider-model", "workspace"}
      && (forall key <- KeysWithin(items[i].body) :: !Spells(key))
      && items[i].version == e.version && Digest(e.key, items[i].version, items[i].body) == e.digest
  }

  lemma {:induction false} ByKeyIsLast(items: seq<Item>, k: Key)
    ensures k in ByKey(items) ==>
              exists i :: && 0 <= i < |items| && items[i] == ByKey(items)[k] && items[i].key == k
                          && (forall j | i < j < |items| :: items[j].key != k)
    ensures k !in ByKey(items) ==> forall item <- items :: item.key != k
  {
    if items == [] { return; }
    var init, last := items[..|items| - 1], items[|items| - 1];
    ByKeyIsLast(init, k);
    assert items == init + [last];
    if last.key == k {
      assert items[|items| - 1] == ByKey(items)[k];
    } else if k in ByKey(items) {
      var i :| 0 <= i < |init| && init[i] == ByKey(init)[k] && init[i].key == k
               && (forall j | i < j < |init| :: init[j].key != k);
      assert items[i] == init[i];
    }
  }

  lemma FaultlessExactly(e: Entry, items: seq<Item>)
    ensures Fault(e, ByKey(items)).None? <==> HasItsBody(e, items)
  {
    ByKeyIsLast(items, e.key);
    if e.key in ByKey(items) {
      var i :| 0 <= i < |items| && items[i] == ByKey(items)[e.key] && items[i].key == e.key
               && (forall j | i < j < |items| :: items[j].key != e.key);
      RefusedExactly(items[i]);
      forall k | 0 <= k < |items| && items[k].key == e.key && (forall j | k < j < |items| :: items[j].key != e.key)
        ensures k == i {}
    }
  }

  /** A delivery is accepted exactly when every line has its body. */
  lemma DeliveryAcceptsExactly(before: Records, entries: seq<Entry>, items: seq<Item>)
    ensures Applied(before, entries, items).answer.Ok? <==> forall e <- entries :: HasItsBody(e, items)
  {
    DeliveredExactly(before, entries, ByKey(items));
    forall e <- entries ensures Fault(e, ByKey(items)).None? <==> HasItsBody(e, items) { FaultlessExactly(e, items); }
  }

  /** What the lines write: those that were not held before. */
  ghost predicate Rewritten(before: Records, entries: seq<Entry>, k: Key) {
    exists e <- entries :: e.key == k && !Holds(before, e)
  }

  lemma {:induction false} AppliedListsTheRewritten(before: Records, entries: seq<Entry>, bodies: map<Key, Item>,
                                                    k: Key)
    requires Deliver(before, entries, bodies).1.None?
    ensures var p := Deliver(before, entries, bodies).0;
            (k in p.applied <==> Rewritten(before, entries, k)) && |p.applied| + |p.untouched| == |entries|
  {
    if entries == [] { return; }
    var init, last := entries[..|entries| - 1], entries[|entries| - 1];
    AppliedListsTheRewritten(before, init, bodies, k);
    DeliveryHolds(before, init, bodies);
    DeliveredExactly(before, entries, bodies);
    assert entries == init + [last];
    var p := Deliver(before, init, bodies).0;
    if d :| d in init && d.key == last.key {
      LinesAgree(entries, bodies, d, last);
    } else {
      assert last.key !in KeysOf(init);
      assert SameAt(p.records, before, last.key);
    }
  }

  /** The report of a successful delivery: `applied` names exactly the records that had to be rewritten, every line is
    * either applied or untouched, and `removed` is exactly what no line names. */
  lemma ReportIsExact(before: Records, entries: seq<Entry>, items: seq<Item>, k: Key)
    requires Applied(before, entries, items).answer.Ok?
    ensures var report := Applied(before, entries, items).answer.value;
            && (k in report.applied <==> Rewritten(before, entries, k))
            && |report.applied| + |report.untouched| == |entries|
            && (k in report.removed <==> k in before && forall e <- entries :: e.key != k)
  {
    var bodies := ByKey(items);
    AppliedListsTheRewritten(before, entries, bodies, k);
    DeliveryHolds(before, entries, bodies);
    assert k in KeysOf(entries) <==> exists e <- entries :: e.key == k;
    if k !in KeysOf(entries) { assert SameAt(Deliver(before, entries, bodies).0.records, before, k); }
  }

  /** One record delivered alone: refused without a trace if it does not validate; else it stands there afterwards, the
    * others are as they were, the answer says whether anything changed, and delivering it again changes nothing. */
  lemma IncrementalExactly(before: Records, item: Item)
    requires Coherent(before)
    ensures var (after, answer) := AppliedOne(before, item);
            if Validate(item).Some? then answer == Err(Validate(item).value) && after == before
            else
              && item.key in after && after[item.key] == Record(item.version, DigestOf(item), item.body)
              && after == before[item.key := after[item.key]]
              && answer == Ok(after != before)
              && AppliedOne(after, item) == (after, Ok(false))
  {
  }

  /** The error of a delivery depends on the manifest and the bodies alone. */
  lemma {:induction false} DeliveredExactly(before: Records, entries: seq<Entry>, bodies: map<Key, Item>)
    ensures Deliver(before, entries, bodies).1.None? <==> forall e <- entries :: Fault(e, bodies).None?
    ensures Deliver(before, entries, bodies).1 == Deliver(map[], entries, bodies).1
  {
    if entries != [] {
      var init := entries[..|entries| - 1];
      DeliveredExactly(before, init, bodies);
      assert entries == init + [entries[|entries| - 1]];
    }
  }

  /** A record's digest is that of what the record holds. */
  ghost predicate Coherent(records: Records) {
    forall k <- records :: records[k].digest == Digest(k, records[k].version, records[k].body)
  }

  lemma {:induction false} DeliveryKeepsCoherent(before: Records, entries: seq<Entry>, bodies: map<Key, Item>)
    requires Coherent(before) && forall k <- bodies :: bodies[k].key == k
    ensures Coherent(Deliver(before, entries, bodies).0.records)
  {
    if entries != [] { DeliveryKeepsCoherent(before, entries[..|entries| - 1], bodies); }
  }

  lemma {:induction false} ByKeyNames(items: seq<Item>)
    ensures forall k <- ByKey(items) :: ByKey(items)[k].key == k && ByKey(items)[k] in items
    ensures forall item <- items :: item.key in ByKey(items)
  {
    if items != [] {
      ByKeyNames(items[..|items| - 1]);
      assert items == items[..|items| - 1] + [items[|items| - 1]];
    }
  }

  /** No two lines that can be applied disagree about a record. */
  lemma LinesAgree(entries: seq<Entry>, bodies: map<Key, Item>, d: Entry, e: Entry)
    requires d in entries && e in entries && d.key == e.key
    requires forall x <- entries :: Fault(x, bodies).None?
    ensures d == e
  {
  }

  /** Afterwards every line is held, and a record no line names is as it was. */
  lemma {:induction false} DeliveryHolds(before: Records, entries: seq<Entry>, bodies: map<Key, Item>)
    requires Deliver(before, entries, bodies).1.None?
    ensures forall e <- entries :: Holds(Deliver(before, entries, bodies).0.records, e)
    ensures forall k :: k !in KeysOf(entries) ==> SameAt(Deliver(before, entries, bodies).0.records, before, k)
  {
    if entries == [] { return; }
    var init, last := entries[..|entries| - 1], entries[|entries| - 1];
    DeliveryHolds(before, init, bodies);
    DeliveredExactly(before, entries, bodies);
    assert entries == init + [last];
    var after := Deliver(before, entries, bodies).0.records;
    forall e <- entries ensures Holds(after, e) {
      if e.key == last.key { LinesAgree(entries, bodies, e, last); }
    }
    forall k | k !in KeysOf(entries) ensures SameAt(after, before, k) {
      assert last in entries;
      assert k !in KeysOf(init);
    }
  }

  predicate SameAt(a: Records, b: Records, k: Key) {
    (k in a <==> k in b) && (k in a ==> a[k] == b[k])
  }

  lemma {:induction false} CountsNameLines(before: Records, entries: seq<Entry>, bodies: map<Key, Item>)
    requires Deliver(before, entries, bodies).1.None?
    ensures Deliver(before, entries, bodies).0.counts.Keys == KeysOf(entries)
  {
    if entries == [] { return; }
    var init, last := entries[..|entries| - 1], entries[|entries| - 1];
    CountsNameLines(before, init, bodies);
    assert entries == init + [last];
    assert KeysOf(entries) == KeysOf(init) + {last.key};
  }

  /** A record is written once if it differed from its line before the delivery, and never otherwise, however
    * often the manifest names it. */
  lemma {:induction false} WrittenExactlyWhenChanged(before: Records, entries: seq<Entry>, bodies: map<Key, Item>,
                                                     e: Entry)
    requires Deliver(before, entries, bodies).1.None? && e in entries
    ensures e.key in Deliver(before, entries, bodies).0.counts
    ensures Deliver(before, entries, bodies).0.counts[e.key] == if Holds(before, e) then 0 else 1
  {
    var init, last := entries[..|entries| - 1], entries[|entries| - 1];
    assert entries == init + [last];
    DeliveredExactly(before, entries, bodies);
    CountsNameLines(before, init, bodies);
    DeliveryHolds(before, init, bodies);
    var p := Deliver(before, init, bodies).0;
    if e in init {
      WrittenExactlyWhenChanged(before, init, bodies, e);
      if e.key == last.key { LinesAgree(entries, bodies, e, last); }
    } else {
      if e.key in KeysOf(init) {
        var d :| d in init && d.key == e.key;
        LinesAgree(entries, bodies, d, e);
      }
      assert SameAt(p.records, before, e.key);
    }
  }

  /** What a projection holds once the set `items` has been delivered in full. */
  function Expected(items: seq<Item>): Records {
    var bodies := ByKey(items);
    map k <- bodies :: RecordOf(bodies[k])
  }

  /** A record is delivered in two different forms under one key. */
  ghost predicate Ambiguous(items: seq<Item>) {
    exists a <- items, b <- items :: a.key == b.key && a != b
  }

  /** A planned set is accepted, whatever the projection held, exactly when no key stands for two records. */
  lemma AcceptedExactly(before: Records, items: seq<Item>)
    requires Plan(items).Ok?
    ensures Applied(before, Plan(items).value, items).answer.Ok? <==> !Ambiguous(items)
    ensures Ambiguous(items) ==> Applied(before, Plan(items).value, items).answer == Err(Mismatch)
  {
    var entries, bodies := Plan(items).value, ByKey(items);
    SortedMembers(items);
    ByKeyNames(items);
    DeliveredExactly(before, entries, bodies);
    forall e <- entries ensures Fault(e, bodies) in {None, Some(Mismatch)} {
      var item :| item in items && e == EntryOf(item);
    }
    OnlyFault(before, entries, bodies);
    if Ambiguous(items) {
      var a, b :| a in items && b in items && a.key == b.key && a != b;
      assert EntryOf(a) in entries && EntryOf(b) in entries;
      assert Fault(EntryOf(a), bodies).Some? || Fault(EntryOf(b), bodies).Some?;
    } else {
      forall e <- entries ensures Fault(e, bodies).None? {
        var item :| item in items && e == EntryOf(item);
        assert bodies[item.key] == item;
      }
    }
  }

  /** Two versions of one record are planned without complaint and can then never be applied. */
  lemma TwoVersionsAreNeverApplied(before: Records, id: string)
    ensures var key := Key("workspace", id);
            var items := [Item(key, 1, []), Item(key, 2, [])];
            && Plan(items).Ok? && Ambiguous(items)
            && Applied(before, Plan(items).value, items).answer == Err(Mismatch)
  {
    var key := Key("workspace", id);
    var items := [Item(key, 1, []), Item(key, 2, [])];
    assert items[0] in items && items[1] in items && items[0] != items[1];
    forall item <- items ensures Validate(item).None? {}
    assert FirstInvalid(items).None?;
    AcceptedExactly(before, items);
  }

  lemma {:induction false} OnlyFault(before: Records, entries: seq<Entry>, bodies: map<Key, Item>)
    requires forall e <- entries :: Fault(e, bodies) in {None, Some(Mismatch)}
    ensures Deliver(before, entries, bodies).1 in {None, Some(Mismatch)}
  {
    if entries != [] { OnlyFault(before, entries[..|entries| - 1], bodies); }
  }

  /** The manifest of an accepted set has exactly one line for each body. */
  lemma LinesAreBodies(items: seq<Item>)
    requires Plan(items).Ok? && !Ambiguous(items)
    ensures KeysOf(Plan(items).value) == ByKey(items).Keys
    ensures forall e <- Plan(items).value :: e.key in ByKey(items) && e == EntryOf(ByKey(items)[e.key])
  {
    var entries, bodies := Plan(items).value, ByKey(items);
    SortedMembers(items);
    ByKeyNames(items);
    forall e <- entries ensures e.key in bodies && e == EntryOf(bodies[e.key]) {
      var item :| item in items && e == EntryOf(item);
      assert bodies[item.key] == item;
    }
    forall k ensures k in KeysOf(entries) <==> k in bodies {
      if k in bodies { assert EntryOf(bodies[k]) in entries; }
    }
  }

  /** A successful full delivery ends in the records of the set, wherever the projection started. */
  lemma FullDeliveryConverges(before: Records, items: seq<Item>)
    requires Coherent(before) && Plan(items).Ok?
    requires Applied(before, Plan(items).value, items).answer.Ok?
    ensures Applied(before, Plan(items).value, items).records == Expected(items)
  {
    var entries, bodies := Plan(items).value, ByKey(items);
    AcceptedExactly(before, items);
    LinesAreBodies(items);
    ByKeyNames(items);
    DeliveryHolds(before, entries, bodies);
    DeliveryKeepsCoherent(before, entries, bodies);
    TrimmedToBodies(Deliver(before, entries, bodies).0.records, entries, bodies);
  }

  lemma TrimmedToBodies(records: Records, entries: seq<Entry>, bodies: map<Key, Item>)
    requires Coherent(records) && KeysOf(entries) == bodies.Keys
    requires forall e <- entries :: Holds(records, e) && e == EntryOf(bodies[e.key])
    ensures records - (records.Keys - KeysOf(entries)) == map k <- bodies :: RecordOf(bodies[k])
  {
    var after := records - (records.Keys - KeysOf(entries));
    forall k <- bodies ensures k in after && after[k] == RecordOf(bodies[k]) {
      var e :| e in entries && e.key == k;
      assert Holds(records, e);
    }
  }

  /** After it parity holds, and delivering the set again writes and removes nothing. */
  lemma ReplayIsSilent(before: Records, items: seq<Item>)
    requires Coherent(before) && Plan(items).Ok?
    requires Applied(before, Plan(items).value, items).answer.Ok?
    ensures var entries := Plan(items).value;
            var after := Applied(before, entries, items).records;
            var again := Applied(after, entries, items);
            && Problems(after, entries) == []
            && again.records == after && again.answer.Ok?
            && again.answer.value.applied == [] && again.answer.value.removed == {}
            && again.answer.value.untouched == Names(entries)
  {
    var entries, bodies := Plan(items).value, ByKey(items);
    FullDeliveryConverges(before, items);
    AcceptedExactly(before, items);
    LinesAreBodies(items);
    var after := Expected(items);
    forall e <- entries ensures Holds(after, e) && Fault(e, bodies).None? {
      assert FirstInvalid(items).None?;
      ByKeyNames(items);
      assert bodies[e.key] in items;
    }
    NothingToWrite(after, entries, bodies);
    assert after.Keys - KeysOf(entries) == {};
    assert after - {} == after;
  }

  function Names(entries: seq<Entry>): seq<Key> {
    if entries == [] then [] else Names(entries[..|entries| - 1]) + [entries[|entries| - 1].key]
  }

  lemma {:induction false} NothingToWrite(records: Records, entries: seq<Entry>, bodies: map<Key, Item>)
    requires forall e <- entries :: Holds(records, e) && Fault(e, bodies).None?
    ensures Problems(records, entries) == []
    ensures var (p, error) := Deliver(records, entries, bodies);
            && error.None? && p.records == records && p.applied == []
            && p.untouched == Names(entries)
  {
    if entries != [] { NothingToWrite(records, entries[..|entries| - 1], bodies); }
  }

  // ----- histories -----

  datatype Delivery = Full(entries: seq<Entry>, items: seq<Item>) | One(item: Item)

  /** Any history of deliveries, the failed ones included. */
  function History(deliveries: seq<Delivery>): Records {
    if deliveries == [] then map[]
    else
      var before := History(deliveries[..|deliveries| - 1]);
      match deliveries[|deliveries| - 1]
      case Full(entries, items) => Applied(before, entries, items).records
      case One(item) => AppliedOne(before, item).0
  }

  lemma {:induction false} HistoryIsCoherent(deliveries: seq<Delivery>)
    ensures Coherent(History(deliveries))
  {
    if deliveries != [] {
      HistoryIsCoherent(deliveries[..|deliveries| - 1]);
      match deliveries[|deliveries| - 1]
      case Full(entries, items) =>
        ByKeyNames(items);
        DeliveryKeepsCoherent(History(deliveries[..|deliveries| - 1]), entries, ByKey(items));
      case One(item) =>
    }
  }

  /** Two histories however different: the delivery of a planned set fails after both with the same error, or
    * succeeds after both and leaves the same records. */
  lemma HistoryDoesNotMatter(a: seq<Delivery>, b: seq<Delivery>, items: seq<Item>)
    requires Plan(items).Ok?
    ensures var x, y := Applied(History(a), Plan(items).value, items), Applied(History(b), Plan(items).value, items);
            && (x.answer.Ok? <==> y.answer.Ok?)
            && (x.answer.Ok? ==> x.records == y.records == Expected(items))
            && (x.answer.Err? ==> x.answer == y.answer)
  {
    HistoryIsCoherent(a);
    HistoryIsCoherent(b);
    AcceptedExactly(History(a), items);
    AcceptedExactly(History(b), items);
    if !Ambiguous(items) {
      FullDeliveryConverges(History(a), items);
      FullDeliveryConverges(History(b), items);
    }
  }
}
