/** Session keys: the raw native id while it is free inside the client, a channel-scoped key once
  * another channel holds it, and numbered variants of the scoped key after that. */
module SessionKeys {
  import opened Decimals

  datatype Channel = Channel(serial: nat, connectionId: string)
  datatype Native = Native(channel: Channel, id: string)

  /** `routes` (key to owner), every channel's `nativeToKey` (owner to key), and the shared counter. */
  datatype Keys = Keys(routes: map<string, Native>, keyOf: map<Native, string>, sequence: nat)

  const NO_KEYS: Keys := Keys(map[], map[], 0)

  // ----- numbered candidates -----

  function Scoped(n: Native): string {
    n.channel.connectionId + ":" + n.id
  }

  function Numbered(base: string, n: nat): string {
    base + "#" + Decimal(n)
  }

  lemma NumberedInjective(base: string, m: nat, n: nat)
    requires Numbered(base, m) == Numbered(base, n)
    ensures m == n
  {
    var cut := |base + "#"|;
    assert Numbered(base, m)[cut..] == Decimal(m) && Numbered(base, n)[cut..] == Decimal(n);
    DecimalInjective(m, n);
  }

  ghost predicate NumberedAfter(key: string, base: string, sequence: nat) {
    exists n: nat :: n > sequence && key == Numbered(base, n)
  }

  /** The taken candidates the counter has still to pass. */
  ghost function Ahead(taken: set<string>, base: string, sequence: nat): set<string> {
    set key | key in taken && NumberedAfter(key, base, sequence)
  }

  lemma NumberedAfterNext(key: string, base: string, sequence: nat)
    ensures NumberedAfter(key, base, sequence + 1) <==>
              NumberedAfter(key, base, sequence) && key != Numbered(base, sequence + 1)
  {
    if NumberedAfter(key, base, sequence) {
      var n: nat :| n > sequence && key == Numbered(base, n);
      assert n == sequence + 1 || NumberedAfter(key, base, sequence + 1);
    }
    if NumberedAfter(key, base, sequence + 1) {
      var n: nat :| n > sequence + 1 && key == Numbered(base, n);
      if key == Numbered(base, sequence + 1) { NumberedInjective(base, n, sequence + 1); }
    }
  }

  lemma AheadShrinks(taken: set<string>, base: string, sequence: nat)
    ensures |Ahead(taken, base, sequence + 1)| <= |Ahead(taken, base, sequence)|
    ensures Numbered(base, sequence + 1) in taken ==>
              |Ahead(taken, base, sequence + 1)| < |Ahead(taken, base, sequence)|
  {
    var here, now, next := Numbered(base, sequence + 1), Ahead(taken, base, sequence), Ahead(taken, base, sequence + 1);
    forall key ensures key in next <==> key in now && key != here { NumberedAfterNext(key, base, sequence); }
    assert next == now - {here};
    assert here in taken ==> here in now;
  }

  /** The first numbered candidate past `sequence` that is free; the search ends because the counter
    * grows while the taken keys are finite. */
  ghost function FirstFree(taken: set<string>, base: string, sequence: nat): (r: (string, nat))
    ensures r.0 !in taken && r.1 > sequence && r.0 == Numbered(base, r.1)
    ensures forall n | sequence < n < r.1 :: Numbered(base, n) in taken
    decreases |Ahead(taken, base, sequence)|
  {
    AheadShrinks(taken, base, sequence);
    if Numbered(base, sequence + 1) !in taken then (Numbered(base, sequence + 1), sequence + 1)
    else FirstFree(taken, base, sequence + 1)
  }

  /** The search standing at candidate `n`. */
  ghost function Standing(taken: set<string>, base: string, n: nat): (string, nat) {
    if Numbered(base, n) in taken then FirstFree(taken, base, n) else (Numbered(base, n), n)
  }

  /** How many taken candidates the search can still meet from `n` on. */
  ghost function StillAhead(taken: set<string>, base: string, n: nat): nat {
    |Ahead(taken, base, n)| + if Numbered(base, n) in taken then 1 else 0
  }

  lemma SearchStep(taken: set<string>, base: string, n: nat)
    ensures FirstFree(taken, base, n) == Standing(taken, base, n + 1)
    ensures Numbered(base, n) in taken ==> StillAhead(taken, base, n + 1) < StillAhead(taken, base, n)
  {
    AheadShrinks(taken, base, n);
  }

  // ----- allocation -----

  ghost function MintKey(s: Keys, n: Native): (r: (string, nat))
    ensures r.0 !in s.routes && r.1 >= s.sequence
  {
    if n.id !in s.routes then (n.id, s.sequence)
    else if Scoped(n) !in s.routes then (Scoped(n), s.sequence)
    else FirstFree(s.routes.Keys, Scoped(n), s.sequence)
  }

  /** `keyFor`; a known key counts only if it is not the empty string. */
  ghost function KeyFor(s: Keys, n: Native): (Keys, string) {
    if n in s.keyOf && s.keyOf[n] != "" then (s, s.keyOf[n])
    else
      var (key, sequence) := MintKey(s, n);
      (Keys(s.routes[key := n], s.keyOf[n := key], sequence), key)
  }

  /** A session event arriving on a channel, or any other use of the shared counter. */
  datatype Event = Seen(native: Native) | Minted

  ghost function Step(s: Keys, e: Event): Keys {
    match e
    case Seen(n) => KeyFor(s, n).0
    case Minted => s.(sequence := s.sequence + 1)
  }

  ghost function Run(s: Keys, events: seq<Event>): Keys {
    if events == [] then s else Step(Run(s, events[..|events| - 1]), events[|events| - 1])
  }

  /** Native ids are non-empty strings. */
  ghost predicate NonEmptyIds(events: seq<Event>) {
    forall e <- events :: e.Seen? ==> e.native.id != ""
  }

  /** The two maps are mutually inverse. */
  ghost predicate Inverse(s: Keys) {
    && (forall key <- s.routes :: s.routes[key] in s.keyOf && s.keyOf[s.routes[key]] == key)
    && (forall n <- s.keyOf :: s.keyOf[n] in s.routes && s.routes[s.keyOf[n]] == n)
  }

  ghost predicate NoEmptyKey(s: Keys) {
    "" !in s.routes
  }

  lemma KeyForKeepsInverse(s: Keys, n: Native)
    requires Inverse(s) && NoEmptyKey(s) && n.id != ""
    ensures Inverse(KeyFor(s, n).0) && NoEmptyKey(KeyFor(s, n).0)
    ensures forall m <- s.keyOf :: m in KeyFor(s, n).0.keyOf && KeyFor(s, n).0.keyOf[m] == s.keyOf[m]
    ensures n in KeyFor(s, n).0.keyOf && KeyFor(s, n).0.keyOf[n] == KeyFor(s, n).1
  {
    if n in s.keyOf {
      assert s.keyOf[n] in s.routes;
    } else {
      var (key, sequence) := MintKey(s, n);
      assert key != "";
      forall m <- s.keyOf ensures s.keyOf[m] != key { assert s.keyOf[m] in s.routes; }
    }
  }

  /** The routing tables are a bijection after any sequence of events, and no key ever moves. */
  lemma {:induction false} KeysFormABijection(s: Keys, events: seq<Event>)
    requires Inverse(s) && NoEmptyKey(s) && NonEmptyIds(events)
    ensures Inverse(Run(s, events)) && NoEmptyKey(Run(s, events))
    ensures forall n <- s.keyOf :: n in Run(s, events).keyOf && Run(s, events).keyOf[n] == s.keyOf[n]
    ensures Run(s, events).sequence >= s.sequence
  {
    if events != [] {
      var before, e := events[..|events| - 1], events[|events| - 1];
      assert forall x <- before :: x in events;
      assert e in events;
      KeysFormABijection(s, before);
      if e.Seen? { KeyForKeepsInverse(Run(s, before), e.native); }
    }
  }

  /** The key chosen for a native id when it is first seen: the id itself while nobody holds it, else the scoped key
    * while nobody holds that, else the first numbered variant that is free. */
  ghost predicate Chosen(taken: set<string>, sequence: nat, n: Native, key: string) {
    if n.id !in taken then key == n.id
    else if n.channel.connectionId + ":" + n.id !in taken then key == n.channel.connectionId + ":" + n.id
    else exists k: nat :: && k > sequence && key == n.channel.connectionId + ":" + n.id + "#" + Decimal(k)
                          && key !in taken
                          && forall j: nat | sequence < j < k ::
                               n.channel.connectionId + ":" + n.id + "#" + Decimal(j) in taken
  }

  lemma ChosenAtFirst(s: Keys, n: Native)
    requires n !in s.keyOf
    ensures n in KeyFor(s, n).0.keyOf && Chosen(s.routes.Keys, s.sequence, n, KeyFor(s, n).0.keyOf[n])
  {
    if n.id in s.routes && Scoped(n) in s.routes {
      var (key, k) := FirstFree(s.routes.Keys, Scoped(n), s.sequence);
      assert key == n.channel.connectionId + ":" + n.id + "#" + Decimal(k);
      forall j: nat | s.sequence < j < k
        ensures n.channel.connectionId + ":" + n.id + "#" + Decimal(j) in s.routes.Keys
      {
        assert Numbered(Scoped(n), j) in s.routes.Keys;
      }
    }
  }

  lemma {:induction false} SplitRun(s: Keys, a: seq<Event>, b: seq<Event>)
    ensures Run(s, a + b) == Run(Run(s, a), b)
  {
    if b == [] {
      assert a + b == a;
    } else {
      var init := b[..|b| - 1];
      assert a + b == a + init + [b[|b| - 1]];
      assert (a + b)[..|a + b| - 1] == a + init;
      SplitRun(s, a, init);
    }
  }

  /** Over every run, a session keeps the key that was chosen for it when it was first seen, from what was taken
    * then. */
  lemma KeyIsTheFirstChoice(before: seq<Event>, n: Native, after: seq<Event>)
    requires NonEmptyIds(before + [Seen(n)] + after) && n !in Run(NO_KEYS, before).keyOf
    ensures var was, now := Run(NO_KEYS, before), Run(NO_KEYS, before + [Seen(n)] + after);
            n in now.keyOf && Chosen(was.routes.Keys, was.sequence, n, now.keyOf[n])
  {
    var mid := before + [Seen(n)];
    assert mid[..|mid| - 1] == before;
    forall e <- mid ensures e in mid + after {}
    forall e <- after ensures e in mid + after {}
    SplitRun(NO_KEYS, mid, after);
    KeysFormABijection(NO_KEYS, mid);
    ChosenAtFirst(Run(NO_KEYS, before), n);
    KeysFormABijection(Run(NO_KEYS, mid), after);
  }

  /** Equal native ids on different channels never share a key. */
  lemma ChannelsNeverShareAKey(events: seq<Event>, m: Native, n: Native)
    requires NonEmptyIds(events) && m != n
    requires m in Run(NO_KEYS, events).keyOf && n in Run(NO_KEYS, events).keyOf
    ensures Run(NO_KEYS, events).keyOf[m] != Run(NO_KEYS, events).keyOf[n]
  {
    KeysFormABijection(NO_KEYS, events);
  }

  /** Exactly which answers are stable: asking again returns the same key unless that key is empty,
    * which happens only for an empty native id nobody held. */
  lemma StableUnlessEmpty(s: Keys, n: Native)
    ensures KeyFor(KeyFor(s, n).0, n).1 == KeyFor(s, n).1 <==> KeyFor(s, n).1 != ""
    ensures KeyFor(s, n).1 == "" <==> n.id == "" && "" !in s.routes && (n in s.keyOf ==> s.keyOf[n] == "")
  {
    var (t, key) := KeyFor(s, n);
    assert Scoped(n)[|n.channel.connectionId|] == ':';
    if key == "" {
      assert KeyFor(t, n).1 !in t.routes;
      assert "" in t.routes;
    }
  }

  /** An answer moves once at most: the second answer to the same native id is the answer to every later one. */
  lemma SecondAnswerIsFinal(s: Keys, n: Native)
    ensures var t := KeyFor(s, n).0;
            KeyFor(KeyFor(t, n).0, n) == (KeyFor(t, n).0, KeyFor(t, n).1)
  {
    var t := KeyFor(s, n).0;
    assert Scoped(n)[|n.channel.connectionId|] == ':';
    StableUnlessEmpty(t, n);
    StableUnlessEmpty(s, n);
    assert KeyFor(t, n).1 != "";
  }

  /** The empty id breaks the bijection on its second event. */
  lemma EmptyIdBreaksInverse(ch: Channel)
    ensures !Inverse(Run(NO_KEYS, [Seen(Native(ch, "")), Seen(Native(ch, ""))]))
  {
    var n := Native(ch, "");
    var events := [Seen(n), Seen(n)];
    assert events[..|events| - 1] == [Seen(n)];
    var once := [Seen(n)];
    assert once[..|once| - 1] == [] && Run(NO_KEYS, []) == NO_KEYS;
    var s := Run(NO_KEYS, [Seen(n)]);
    assert s == Step(NO_KEYS, Seen(n));
    assert MintKey(NO_KEYS, n) == ("", 0);
    assert s.routes == map["" := n] && s.keyOf == map[n := ""];
    assert Scoped(n)[|ch.connectionId|] == ':';
    assert Run(NO_KEYS, events).keyOf[n] == Scoped(n);
    assert Run(NO_KEYS, events).routes[""] == n;
  }

  /** The client object's side: the two tables and the counter, updated in place. */
  class SessionRouter {
    var routes: map<string, Native>
    var keyOf: map<Native, string>
    var sequence: nat

    ghost function View(): Keys
      reads this
    {
      Keys(routes, keyOf, sequence)
    }

    constructor ()
      ensures View() == NO_KEYS
    {
      routes, keyOf, sequence := map[], map[], 0;
    }

    /** The `while` of the allocation, entered with a scoped key that is taken. */
    method NextFree(base: string) returns (key: string)
      requires base in routes
      modifies this`sequence
      ensures (key, sequence) == FirstFree(routes.Keys, base, old(sequence))
    {
      ghost var taken, start := routes.Keys, sequence;
      SearchStep(taken, base, sequence);
      sequence := sequence + 1;
      key := Numbered(base, sequence);
      while key in routes
        invariant key == Numbered(base, sequence)
        invariant Standing(taken, base, sequence) == FirstFree(taken, base, start)
        decreases StillAhead(taken, base, sequence)
      {
        SearchStep(taken, base, sequence);
        sequence := sequence + 1;
        key := Numbered(base, sequence);
      }
    }

    method Key(n: Native) returns (key: string)
      modifies this
      ensures (View(), key) == KeyFor(old(View()), n)
    {
      if n in keyOf && keyOf[n] != "" { return keyOf[n]; }
      key := n.id;
      if key in routes { key := Scoped(n); }
      if key in routes { key := NextFree(key); }
      keyOf := keyOf[n := key];
      routes := routes[key := n];
    }
  }
}
