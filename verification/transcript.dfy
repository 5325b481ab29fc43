/** How a session's stream of events becomes messages. Chunks that name a message go to it; chunks
  * that do not fill one open stream until something proves a new message began. */
module Transcript {
  import opened Wrappers

  /** Native message ids, tool-call ids and minted ids never coincide. */
  datatype MessageId = Native(id: string) | ToolCard(id: string) | Minted(n: nat)

  datatype Role = User | Assistant
  datatype Kind = AgentText | AgentThought | UserText

  datatype Message = Message(id: MessageId, role: Role, text: string, reasoning: string)

  datatype Event =
    | Chunk(kind: Kind, messageId: string, piece: string)  // empty `messageId`: the chunk names none
    | Tool(toolId: string)
    | Sent(text: string)       // the user's own message, appended before its turn starts
    | Boundary                 // a turn starts or settles
    | Elsewhere(minted: nat)   // ids minted for other sessions and records

  datatype Stream = Stream(n: nat, role: Role)

  /** One session's bucket and open stream, with the client's shared counter. */
  datatype Session = Session(bucket: seq<Message>, open: Option<Stream>, sequence: nat)

  const NO_MESSAGES: Session := Session([], None, 0)

  // ----- the steps -----

  function RoleOf(kind: Kind): Role {
    if kind.UserText? then User else Assistant
  }

  predicate Has(bucket: seq<Message>, id: MessageId) {
    exists m <- bucket :: m.id == id
  }

  function Ensured(bucket: seq<Message>, id: MessageId, role: Role): seq<Message> {
    if Has(bucket, id) then bucket else bucket + [Message(id, role, "", "")]
  }

  /** `mutateMessage` for one piece of content. */
  function Extended(bucket: seq<Message>, id: MessageId, text: string, reasoning: string): seq<Message> {
    seq(|bucket|, i requires 0 <= i < |bucket| =>
      if bucket[i].id == id
      then bucket[i].(text := bucket[i].text + text, reasoning := bucket[i].reasoning + reasoning)
      else bucket[i])
  }

  /** `chunkMessage`: the message a chunk belongs to. */
  function Target(s: Session, kind: Kind, messageId: string): (Session, MessageId) {
    if messageId != "" then
      (s.(bucket := Ensured(s.bucket, Native(messageId), RoleOf(kind)), open := None), Native(messageId))
    else if s.open.Some? && s.open.value.role == RoleOf(kind) && Has(s.bucket, Minted(s.open.value.n)) then
      (s, Minted(s.open.value.n))
    else
      var n := s.sequence + 1;
      (Session(s.bucket + [Message(Minted(n), RoleOf(kind), "", "")], Some(Stream(n, RoleOf(kind))), n), Minted(n))
  }

  function TextPiece(e: Event): string {
    if e.Sent? then e.text else if e.Chunk? && !e.kind.AgentThought? then e.piece else ""
  }

  function ThoughtPiece(e: Event): string {
    if e.Chunk? && e.kind.AgentThought? then e.piece else ""
  }

  /** The new state and the message the event belongs to. */
  function Step(s: Session, e: Event): (Session, Option<MessageId>) {
    match e
    case Chunk(kind, messageId, _) =>
      var (t, id) := Target(s, kind, messageId);
      (t.(bucket := Extended(t.bucket, id, TextPiece(e), ThoughtPiece(e))), Some(id))
    case Tool(toolId) =>
      (s.(bucket := Ensured(s.bucket, ToolCard(toolId), Assistant), open := None), Some(ToolCard(toolId)))
    case Sent(text) =>
      var n := s.sequence + 1;
      (s.(bucket := s.bucket + [Message(Minted(n), User, text, "")], sequence := n), Some(Minted(n)))
    case Boundary => (s.(open := None), None)
    case Elsewhere(minted) => (s.(sequence := s.sequence + minted), None)
  }

  function Run(events: seq<Event>): (r: (Session, seq<Option<MessageId>>))
    ensures |r.1| == |events|
  {
    if events == [] then (NO_MESSAGES, [])
    else
      var (s, owners) := Run(events[..|events| - 1]);
      var (t, owner) := Step(s, events[|events| - 1]);
      (t, owners + [owner])
  }

  // ----- the declarative reading -----

  predicate Idless(e: Event) {
    e.Chunk? && e.messageId == ""
  }

  /** Whose words an event brings. */
  function EventRole(e: Event): Role {
    match e
    case Chunk(AgentText, _, _) => Assistant
    case Chunk(AgentThought, _, _) => Assistant
    case Chunk(UserText, _, _) => User
    case Sent(_) => User
    case _ => Assistant
  }

  function TextOf(e: Event): string {
    match e
    case Chunk(AgentText, _, piece) => piece
    case Chunk(UserText, _, piece) => piece
    case Sent(text) => text
    case _ => ""
  }

  function ThoughtOf(e: Event): string {
    match e
    case Chunk(AgentThought, _, piece) => piece
    case _ => ""
  }

  /** Ends an open stream of the given role. */
  predicate Breaks(e: Event, role: Role) {
    e.Tool? || e.Boundary? || (e.Chunk? && (e.messageId != "" || EventRole(e) != role))
  }

  ghost predicate Unbroken(events: seq<Event>, from: int, to: int, role: Role)
    requires 0 <= from && to <= |events|
  {
    forall k | from <= k < to :: !Breaks(events[k], role)
  }

  /** Two id-less chunks of one role with nothing between them that ends the stream. */
  ghost predicate SameStream(events: seq<Event>, i: int, j: int)
    requires 0 <= i < j < |events| && Idless(events[i]) && Idless(events[j])
  {
    EventRole(events[i]) == EventRole(events[j]) && Unbroken(events, i + 1, j, EventRole(events[i]))
  }

  /** The in-order concatenation of a message's own pieces. */
  function OwnText(events: seq<Event>, owners: seq<Option<MessageId>>, id: MessageId): string
    requires |events| == |owners|
  {
    if events == [] then ""
    else
      var last := |events| - 1;
      OwnText(events[..last], owners[..last], id) + if owners[last] == Some(id) then TextOf(events[last]) else ""
  }

  function OwnThoughts(events: seq<Event>, owners: seq<Option<MessageId>>, id: MessageId): string
    requires |events| == |owners|
  {
    if events == [] then ""
    else
      var last := |events| - 1;
      OwnThoughts(events[..last], owners[..last], id)
      + if owners[last] == Some(id) then ThoughtOf(events[last]) else ""
  }

  /** The distinct owners in order of first appearance, each with the role of its first event. */
  function FirstSeen(events: seq<Event>, owners: seq<Option<MessageId>>): seq<(MessageId, Role)>
    requires |events| == |owners|
  {
    if events == [] then []
    else
      var last := |events| - 1;
      var before := FirstSeen(events[..last], owners[..last]);
      if owners[last].None? || (exists p <- before :: p.0 == owners[last].value) then before
      else before + [(owners[last].value, EventRole(events[last]))]
  }

  function Heads(bucket: seq<Message>): seq<(MessageId, Role)> {
    seq(|bucket|, i requires 0 <= i < |bucket| => (bucket[i].id, bucket[i].role))
  }

  // ----- the invariant -----

  ghost predicate Distinct(bucket: seq<Message>) {
    forall i, j | 0 <= i < j < |bucket| :: bucket[i].id != bucket[j].id
  }

  ghost predicate BucketInv(events: seq<Event>, s: Session, owners: seq<Option<MessageId>>)
    requires |owners| == |events|
  {
    && Distinct(s.bucket)
    && Heads(s.bucket) == FirstSeen(events, owners)
    && (forall m <- s.bucket ::
          m.text == OwnText(events, owners, m.id) && m.reasoning == OwnThoughts(events, owners, m.id))
    && (forall m <- s.bucket :: m.id.Minted? ==> m.id.n <= s.sequence)
    && (forall o <- owners :: o.Some? ==> Has(s.bucket, o.value))
  }

  /** The chunk at `i` belongs to the stream still open at the end. */
  ghost predicate Live(events: seq<Event>, i: int)
    requires 0 <= i < |events| && Idless(events[i])
  {
    Unbroken(events, i + 1, |events|, EventRole(events[i]))
  }

  ghost predicate StreamInv(events: seq<Event>, s: Session, owners: seq<Option<MessageId>>)
    requires |owners| == |events|
  {
    && (s.open.Some? ==> Has(s.bucket, Minted(s.open.value.n)))
    && (forall i | 0 <= i < |events| && Idless(events[i]) ::
          && owners[i].Some? && owners[i].value.Minted?
          && (Live(events, i) <==> s.open.Some? && owners[i] == Some(Minted(s.open.value.n)))
          && (Live(events, i) ==> s.open.value.role == EventRole(events[i])))
    && (forall i, j | 0 <= i < j < |events| && Idless(events[i]) && Idless(events[j]) ::
          owners[i] == owners[j] <==> SameStream(events, i, j))
  }

  ghost predicate NamedInv(events: seq<Event>, owners: seq<Option<MessageId>>)
    requires |owners| == |events|
  {
    forall i | 0 <= i < |events| ::
      match events[i]
      case Chunk(_, messageId, _) => messageId != "" ==> owners[i] == Some(Native(messageId))
      case Tool(toolId) => owners[i] == Some(ToolCard(toolId))
      case Sent(_) => owners[i].Some? && owners[i].value.Minted?
      case _ => owners[i].None?
  }

  // ----- preservation -----

  lemma OwnSnoc(events: seq<Event>, owners: seq<Option<MessageId>>, e: Event, o: Option<MessageId>, id: MessageId)
    requires |events| == |owners|
    ensures OwnText(events + [e], owners + [o], id) ==
            OwnText(events, owners, id) + if o == Some(id) then TextOf(e) else ""
    ensures OwnThoughts(events + [e], owners + [o], id)
         == OwnThoughts(events, owners, id) + if o == Some(id) then ThoughtOf(e) else ""
  {
    assert (events + [e])[..|events|] == events && (owners + [o])[..|events|] == owners;
  }

  lemma FirstSeenSnoc(events: seq<Event>, owners: seq<Option<MessageId>>, e: Event, o: Option<MessageId>)
    requires |events| == |owners|
    ensures var before := FirstSeen(events, owners);
            FirstSeen(events + [e], owners + [o])
            == if o.None? || (exists p <- before :: p.0 == o.value) then before else before + [(o.value, EventRole(e))]
  {
    assert (events + [e])[..|events|] == events && (owners + [o])[..|events|] == owners;
  }

  lemma {:induction false} UnownedIsEmpty(events: seq<Event>, owners: seq<Option<MessageId>>, id: MessageId)
    requires |events| == |owners| && Some(id) !in owners
    ensures OwnText(events, owners, id) == "" && OwnThoughts(events, owners, id) == ""
  {
    if events != [] {
      var last := |events| - 1;
      UnownedIsEmpty(events[..last], owners[..last], id);
    }
  }

  function Placed(bucket: seq<Message>, id: MessageId, e: Event): seq<Message> {
    Extended(Ensured(bucket, id, EventRole(e)), id, TextOf(e), ThoughtOf(e))
  }

  lemma PlacedShape(bucket: seq<Message>, id: MessageId, e: Event)
    requires Distinct(bucket)
    ensures var after := Placed(bucket, id, e);
            && Distinct(after) && Has(after, id)
            && Heads(after) == (if Has(bucket, id) then Heads(bucket) else Heads(bucket) + [(id, EventRole(e))])
            && (forall m <- bucket :: Has(after, m.id))
  {
    var after := Placed(bucket, id, e);
    forall i | 0 <= i < |bucket| ensures after[i].id == bucket[i].id && Has(after, bucket[i].id) {}
    if !Has(bucket, id) { assert after[|bucket|].id == id; }
  }

  lemma PlacedTexts(events: seq<Event>, bucket: seq<Message>, owners: seq<Option<MessageId>>, id: MessageId, e: Event,
                    i: nat)
    requires |events| == |owners| && i < |Placed(bucket, id, e)|
    requires forall m <- bucket ::
               m.text == OwnText(events, owners, m.id) && m.reasoning == OwnThoughts(events, owners, m.id)
    requires forall o <- owners :: o.Some? ==> Has(bucket, o.value)
    ensures var m := Placed(bucket, id, e)[i];
            && m.text == OwnText(events + [e], owners + [Some(id)], m.id)
            && m.reasoning == OwnThoughts(events + [e], owners + [Some(id)], m.id)
  {
    var m := Placed(bucket, id, e)[i];
    OwnSnoc(events, owners, e, Some(id), m.id);
    if i < |bucket| {
      assert bucket[i] in bucket;
    } else {
      UnownedIsEmpty(events, owners, id);
    }
  }

  /** A message is in the bucket exactly when its id was seen. */
  lemma HasIsSeen(events: seq<Event>, bucket: seq<Message>, owners: seq<Option<MessageId>>, id: MessageId)
    requires |events| == |owners| && Heads(bucket) == FirstSeen(events, owners)
    ensures Has(bucket, id) <==> exists p <- FirstSeen(events, owners) :: p.0 == id
  {
    if Has(bucket, id) {
      var i :| 0 <= i < |bucket| && bucket[i].id == id;
      assert Heads(bucket)[i] in FirstSeen(events, owners);
    }
    if p :| p in FirstSeen(events, owners) && p.0 == id {
      var i :| 0 <= i < |bucket| && Heads(bucket)[i] == p;
      assert bucket[i].id == id;
    }
  }

  lemma PlacedHeads(events: seq<Event>, bucket: seq<Message>, owners: seq<Option<MessageId>>, id: MessageId, e: Event)
    requires |events| == |owners| && Distinct(bucket) && Heads(bucket) == FirstSeen(events, owners)
    ensures Heads(Placed(bucket, id, e)) == FirstSeen(events + [e], owners + [Some(id)])
  {
    PlacedShape(bucket, id, e);
    FirstSeenSnoc(events, owners, e, Some(id));
    HasIsSeen(events, bucket, owners, id);
  }

  /** Adding an event that belongs to message `id` to the bucket's reading. */
  lemma PlacedKeeps(events: seq<Event>, s: Session, owners: seq<Option<MessageId>>, id: MessageId, e: Event, t: Session)
    requires |events| == |owners| && BucketInv(events, s, owners)
    requires t.bucket == Placed(s.bucket, id, e) && t.sequence >= s.sequence
    requires id.Minted? ==> id.n <= t.sequence
    ensures BucketInv(events + [e], t, owners + [Some(id)])
  {
    PlacedShape(s.bucket, id, e);
    PlacedHeads(events, s.bucket, owners, id, e);
    forall m <- t.bucket
      ensures m.text == OwnText(events + [e], owners + [Some(id)], m.id)
      ensures m.reasoning == OwnThoughts(events + [e], owners + [Some(id)], m.id)
      ensures m.id.Minted? ==> m.id.n <= t.sequence
    {
      var i :| 0 <= i < |t.bucket| && t.bucket[i] == m;
      PlacedTexts(events, s.bucket, owners, id, e, i);
      assert i < |s.bucket| ==> s.bucket[i] in s.bucket && s.bucket[i].id == m.id;
    }
    forall o <- owners | o.Some? ensures Has(t.bucket, o.value) {
      var m :| m in s.bucket && m.id == o.value;
    }
  }

  /** Events that belong to no message leave the reading alone. */
  lemma UnplacedKeeps(events: seq<Event>, s: Session, owners: seq<Option<MessageId>>, e: Event, t: Session)
    requires |events| == |owners| && BucketInv(events, s, owners)
    requires t.bucket == s.bucket && t.sequence >= s.sequence
    ensures BucketInv(events + [e], t, owners + [None])
  {
    FirstSeenSnoc(events, owners, e, None);
    forall m <- t.bucket ensures m.text == OwnText(events + [e], owners + [None], m.id)
                         ensures m.reasoning == OwnThoughts(events + [e], owners + [None], m.id) {
      OwnSnoc(events, owners, e, None, m.id);
    }
  }

  lemma ExtendedByNothing(bucket: seq<Message>, id: MessageId)
    ensures Extended(bucket, id, "", "") == bucket
  {
    forall i | 0 <= i < |bucket| ensures Extended(bucket, id, "", "")[i] == bucket[i] {
      assert bucket[i].text + "" == bucket[i].text && bucket[i].reasoning + "" == bucket[i].reasoning;
    }
  }

  /** Appending a sent message is placing its text in a message of its own. */
  lemma SentIsPlaced(bucket: seq<Message>, id: MessageId, text: string)
    requires !Has(bucket, id)
    ensures bucket + [Message(id, User, text, "")] == Placed(bucket, id, Sent(text))
  {
    assert "" + text == text && "" + "" == "";
    var after := Placed(bucket, id, Sent(text));
    forall i | 0 <= i < |bucket| ensures after[i] == bucket[i] { assert bucket[i] in bucket; }
  }

  lemma UnmintedIsAbsent(s: Session, n: nat)
    requires (forall m <- s.bucket :: m.id.Minted? ==> m.id.n <= s.sequence) && n > s.sequence
    ensures !Has(s.bucket, Minted(n))
  {
  }

  lemma BucketKeeps(events: seq<Event>, s: Session, owners: seq<Option<MessageId>>, e: Event)
    requires |events| == |owners| && BucketInv(events, s, owners)
    ensures BucketInv(events + [e], Step(s, e).0, owners + [Step(s, e).1])
  {
    var (t, owner) := Step(s, e);
    UnmintedIsAbsent(s, s.sequence + 1);
    match e
    case Chunk(kind, messageId, _) =>
      assert t.bucket == Placed(s.bucket, owner.value, e);
      PlacedKeeps(events, s, owners, owner.value, e, t);
    case Tool(toolId) =>
      ExtendedByNothing(t.bucket, owner.value);
      PlacedKeeps(events, s, owners, owner.value, e, t);
    case Sent(text) =>
      SentIsPlaced(s.bucket, owner.value, text);
      PlacedKeeps(events, s, owners, owner.value, e, t);
    case Boundary => UnplacedKeeps(events, s, owners, e, t);
    case Elsewhere(_) => UnplacedKeeps(events, s, owners, e, t);
  }

  lemma LiveSnoc(events: seq<Event>, e: Event, i: nat)
    requires i < |events| && Idless(events[i])
    ensures Live(events + [e], i) <==> Live(events, i) && !Breaks(e, EventRole(events[i]))
    ensures Idless(e) ==> (SameStream(events + [e], i, |events|) <==>
                             Live(events, i) && EventRole(events[i]) == EventRole(e))
  {
    var more := events + [e];
    assert more[i] == events[i];
    if Live(more, i) {
      assert Live(events, i) by {
        forall k | i + 1 <= k < |events| ensures !Breaks(events[k], EventRole(events[i])) {
          assert more[k] == events[k];
        }
      }
      assert !Breaks(more[|events|], EventRole(events[i]));
    }
    if Idless(e) && SameStream(more, i, |events|) {
      forall k | i + 1 <= k < |events| ensures !Breaks(events[k], EventRole(events[i])) {
        assert more[k] == events[k];
      }
    }
  }

  lemma SameStreamSnoc(events: seq<Event>, e: Event, i: nat, j: nat)
    requires i < j < |events| && Idless(events[i]) && Idless(events[j])
    ensures SameStream(events + [e], i, j) <==> SameStream(events, i, j)
  {
    var more := events + [e];
    assert forall k | 0 <= k < |events| :: more[k] == events[k];
  }

  /** The stream reading after an event that is not an id-less chunk. */
  lemma StreamKeepsOther(events: seq<Event>, s: Session, owners: seq<Option<MessageId>>, e: Event)
    requires |events| == |owners| && BucketInv(events, s, owners) && StreamInv(events, s, owners) && !Idless(e)
    ensures StreamInv(events + [e], Step(s, e).0, owners + [Step(s, e).1])
  {
    var (t, owner) := Step(s, e);
    var more, all := events + [e], owners + [owner];
    BucketKeeps(events, s, owners, e);
    forall i | 0 <= i < |more| && Idless(more[i])
      ensures all[i].Some? && all[i].value.Minted?
      ensures Live(more, i) <==> t.open.Some? && all[i] == Some(Minted(t.open.value.n))
      ensures Live(more, i) ==> t.open.value.role == EventRole(more[i])
    {
      assert i < |events| && more[i] == events[i] && all[i] == owners[i];
      LiveSnoc(events, e, i);
    }
    forall i, j | 0 <= i < j < |more| && Idless(more[i]) && Idless(more[j])
      ensures all[i] == all[j] <==> SameStream(more, i, j)
    {
      assert more[i] == events[i] && more[j] == events[j];
      SameStreamSnoc(events, e, i, j);
    }
    if t.open.Some? { HasKept(events, s, owners, e, Minted(t.open.value.n)); }
  }

  lemma HasKept(events: seq<Event>, s: Session, owners: seq<Option<MessageId>>, e: Event, id: MessageId)
    requires |events| == |owners| && BucketInv(events, s, owners) && Has(s.bucket, id)
    ensures Has(Step(s, e).0.bucket, id)
  {
    var i :| 0 <= i < |s.bucket| && s.bucket[i].id == id;
    assert Step(s, e).0.bucket[i].id == id;
  }

  lemma StreamKeepsIdless(events: seq<Event>, s: Session, owners: seq<Option<MessageId>>, e: Event)
    requires |events| == |owners| && BucketInv(events, s, owners) && StreamInv(events, s, owners) && Idless(e)
    ensures StreamInv(events + [e], Step(s, e).0, owners + [Step(s, e).1])
  {
    var (t, owner) := Step(s, e);
    var more, all := events + [e], owners + [owner];
    var continued := s.open.Some? && s.open.value.role == EventRole(e);
    assert continued ==> t.open == s.open && owner == Some(Minted(s.open.value.n));
    assert !continued ==>
        owner == Some(Minted(s.sequence + 1)) && t.open == Some(Stream(s.sequence + 1, EventRole(e)));
    UnmintedIsAbsent(s, s.sequence + 1);
    forall i | 0 <= i < |events| && Idless(events[i])
      ensures owners[i] != Some(Minted(s.sequence + 1))
    {
      assert owners[i] in owners;
    }
    forall i | 0 <= i < |more| && Idless(more[i])
      ensures all[i].Some? && all[i].value.Minted?
      ensures Live(more, i) <==> t.open.Some? && all[i] == Some(Minted(t.open.value.n))
      ensures Live(more, i) ==> t.open.value.role == EventRole(more[i])
    {
      if i < |events| {
        assert more[i] == events[i] && all[i] == owners[i];
        LiveSnoc(events, e, i);
      }
    }
    forall i, j | 0 <= i < j < |more| && Idless(more[i]) && Idless(more[j])
      ensures all[i] == all[j] <==> SameStream(more, i, j)
    {
      assert more[i] == events[i] && all[i] == owners[i];
      if j < |events| {
        assert more[j] == events[j];
        SameStreamSnoc(events, e, i, j);
      } else {
        LiveSnoc(events, e, i);
      }
    }
    OpenIsPresent(s, e);
  }

  lemma OpenIsPresent(s: Session, e: Event)
    requires Idless(e)
    ensures Step(s, e).0.open.Some? && Has(Step(s, e).0.bucket, Minted(Step(s, e).0.open.value.n))
  {
    var (u, id) := Target(s, e.kind, e.messageId);
    var t := Step(s, e).0;
    if u == s {
      var i :| 0 <= i < |s.bucket| && s.bucket[i].id == id;
      assert t.bucket[i].id == id;
    } else {
      assert t.bucket[|s.bucket|].id == id;
    }
  }

  lemma NamedKeeps(events: seq<Event>, s: Session, owners: seq<Option<MessageId>>, e: Event)
    requires |events| == |owners| && NamedInv(events, owners)
    ensures NamedInv(events + [e], owners + [Step(s, e).1])
  {
    var more, all := events + [e], owners + [Step(s, e).1];
    assert forall i | 0 <= i < |events| :: more[i] == events[i] && all[i] == owners[i];
  }

  /** The grouping meets its declarative reading after any sequence of events: every message holds
    * exactly its own pieces in order, and the messages are the owners in order of appearance. */
  lemma {:induction false} GroupingIsExact(events: seq<Event>)
    ensures BucketInv(events, Run(events).0, Run(events).1) && StreamInv(events, Run(events).0, Run(events).1)
  {
    if events != [] {
      var before, e := events[..|events| - 1], events[|events| - 1];
      GroupingIsExact(before);
      var (s, owners) := Run(before);
      assert events == before + [e];
      BucketKeeps(before, s, owners, e);
      if Idless(e) { StreamKeepsIdless(before, s, owners, e); } else { StreamKeepsOther(before, s, owners, e); }
    }
  }

  lemma {:induction false} OwnersAreNamed(events: seq<Event>)
    ensures NamedInv(events, Run(events).1)
  {
    if events != [] {
      var before, e := events[..|events| - 1], events[|events| - 1];
      OwnersAreNamed(before);
      assert events == before + [e];
      NamedKeeps(before, Run(before).0, Run(before).1, e);
    }
  }

  /** Two id-less chunks share a message exactly when they have one role and no id-bearing chunk,
    * tool event, turn boundary or id-less chunk of the other role lies between them. */
  lemma IdlessChunksShareExactly(events: seq<Event>, i: nat, j: nat)
    requires i < j < |events| && Idless(events[i]) && Idless(events[j])
    ensures Run(events).1[i] == Run(events).1[j] <==>
            events[i].kind.UserText? == events[j].kind.UserText? &&
            forall k | i < k < j ::
              match events[k]
              case Tool(_) => false
              case Boundary => false
              case Chunk(kind, messageId, _) => messageId == "" && kind.UserText? == events[i].kind.UserText?
              case _ => true
  {
    GroupingIsExact(events);
    SameStreamIs(events, i, j);
    assert forall k | i < k < j :: GoesOn(events[k], events[i].kind.UserText?) <==>
                                   match events[k]
                                   case Tool(_) => false
                                   case Boundary => false
                                   case Chunk(kind, messageId, _) =>
                                     messageId == "" && kind.UserText? == events[i].kind.UserText?
                                   case _ => true;
  }

  predicate GoesOn(e: Event, user: bool) {
    match e
    case Tool(_) => false
    case Boundary => false
    case Chunk(kind, messageId, _) => messageId == "" && kind.UserText? == user
    case _ => true
  }

  lemma BreaksUnlessItGoesOn(e: Event, kind: Kind, messageId: string, piece: string)
    ensures Breaks(e, EventRole(Chunk(kind, messageId, piece))) <==> !GoesOn(e, kind.UserText?)
  {
  }

  lemma SameStreamIs(events: seq<Event>, i: nat, j: nat)
    requires i < j < |events| && Idless(events[i]) && Idless(events[j])
    ensures SameStream(events, i, j) <==>
            events[i].kind.UserText? == events[j].kind.UserText? &&
            forall k | i < k < j :: GoesOn(events[k], events[i].kind.UserText?)
  {
    forall k | i < k < j
      ensures Breaks(events[k], EventRole(events[i])) <==> !GoesOn(events[k], events[i].kind.UserText?)
    {
      BreaksUnlessItGoesOn(events[k], events[i].kind, events[i].messageId, events[i].piece);
    }
  }

  ghost predicate OwnsFirst(owners: seq<Option<MessageId>>, id: MessageId, i: int) {
    0 <= i < |owners| && owners[i] == Some(id) && forall j | 0 <= j < i :: owners[j] != Some(id)
  }

  lemma {:induction false} SeenWithItsFirst(events: seq<Event>, owners: seq<Option<MessageId>>, p: (MessageId, Role))
    requires |events| == |owners| && p in FirstSeen(events, owners)
    ensures exists i :: OwnsFirst(owners, p.0, i) && p.1 == EventRole(events[i])
  {
    var last := |events| - 1;
    var before := FirstSeen(events[..last], owners[..last]);
    if p in before {
      SeenWithItsFirst(events[..last], owners[..last], p);
      var i :| OwnsFirst(owners[..last], p.0, i) && p.1 == EventRole(events[..last][i]);
      assert OwnsFirst(owners, p.0, i);
    } else {
      forall j | 0 <= j < last ensures owners[j] != Some(p.0) {
        if owners[j] == Some(p.0) { OwnerIsSeen(events[..last], owners[..last], j); }
      }
      assert OwnsFirst(owners, p.0, last);
    }
  }

  lemma {:induction false} OwnerIsSeen(events: seq<Event>, owners: seq<Option<MessageId>>, j: nat)
    requires |events| == |owners| && j < |owners| && owners[j].Some?
    ensures exists p <- FirstSeen(events, owners) :: p.0 == owners[j].value
  {
    var last := |events| - 1;
    var before := FirstSeen(events[..last], owners[..last]);
    if j < last {
      OwnerIsSeen(events[..last], owners[..last], j);
      assert forall p <- before :: p in FirstSeen(events, owners);
    } else if !(exists p <- before :: p.0 == owners[last].value) {
      assert (owners[last].value, EventRole(events[last])) in FirstSeen(events, owners);
    }
  }

  /** Whose message a message is: the user's if the first event it owns is a user chunk or a sent prompt, and the
    * assistant's if that is an agent's chunk, thought or tool event. */
  lemma RolesAreExact(events: seq<Event>, k: nat)
    requires k < |Run(events).0.bucket|
    ensures exists i :: && OwnsFirst(Run(events).1, Run(events).0.bucket[k].id, i)
                        && match events[i]
                           case Chunk(AgentText, _, _) => Run(events).0.bucket[k].role == Assistant
                           case Chunk(AgentThought, _, _) => Run(events).0.bucket[k].role == Assistant
                           case Tool(_) => Run(events).0.bucket[k].role == Assistant
                           case Chunk(UserText, _, _) => Run(events).0.bucket[k].role == User
                           case Sent(_) => Run(events).0.bucket[k].role == User
                           case _ => false
  {
    GroupingIsExact(events);
    OwnersAreNamed(events);
    var (s, owners) := Run(events);
    assert Heads(s.bucket)[k] == (s.bucket[k].id, s.bucket[k].role);
    SeenWithItsFirst(events, owners, (s.bucket[k].id, s.bucket[k].role));
    var i :| OwnsFirst(owners, s.bucket[k].id, i) && s.bucket[k].role == EventRole(events[i]);
    assert owners[i].Some?;
  }

  /** What the user sent is a message nothing else belongs to. */
  ghost predicate SentAlone(events: seq<Event>, s: Session, owners: seq<Option<MessageId>>)
    requires |owners| == |events|
  {
    forall i | 0 <= i < |events| && events[i].Sent? ::
      && (s.open.Some? ==> owners[i] != Some(Minted(s.open.value.n)))
      && forall j | 0 <= j < |events| && j != i :: owners[j] != owners[i]
  }

  lemma FreshOrOpen(s: Session, e: Event)
    ensures var (t, owner) := Step(s, e);
            && (owner.Some? && owner.value.Minted? ==>
                  owner == Some(Minted(s.sequence + 1)) ||
                  (e.Chunk? && s.open.Some? && owner == Some(Minted(s.open.value.n))))
            && (t.open.Some? ==> t.open == s.open || (t.open.value.n == s.sequence + 1 && !e.Sent?))
            && (e.Sent? ==> owner == Some(Minted(s.sequence + 1)))
  {
  }

  lemma SentAloneStays(events: seq<Event>, s: Session, owners: seq<Option<MessageId>>, e: Event)
    requires |events| == |owners| && BucketInv(events, s, owners) && SentAlone(events, s, owners)
    requires NamedInv(events, owners)
    requires s.open.Some? ==> s.open.value.n <= s.sequence
    ensures SentAlone(events + [e], Step(s, e).0, owners + [Step(s, e).1])
  {
    FreshOrOpen(s, e);
    UnmintedIsAbsent(s, s.sequence + 1);
    forall i | 0 <= i < |events| ensures owners[i] != Some(Minted(s.sequence + 1)) { assert owners[i] in owners; }
  }

  lemma OpenIsMinted(events: seq<Event>, s: Session, owners: seq<Option<MessageId>>)
    requires |events| == |owners| && BucketInv(events, s, owners) && StreamInv(events, s, owners)
    ensures s.open.Some? ==> s.open.value.n <= s.sequence
  {
    if s.open.Some? { var m :| m in s.bucket && m.id == Minted(s.open.value.n); }
  }

  lemma {:induction false} SentStandsAlone(events: seq<Event>)
    ensures SentAlone(events, Run(events).0, Run(events).1)
  {
    if events != [] {
      var before, e := events[..|events| - 1], events[|events| - 1];
      SentStandsAlone(before);
      GroupingIsExact(before);
      OwnersAreNamed(before);
      OpenIsMinted(before, Run(before).0, Run(before).1);
      SentAloneStays(before, Run(before).0, Run(before).1, e);
      assert events == before + [e];
    }
  }

  /** No piece is lost or doubled: each event's owner is one message of the bucket, whose text is the
    * in-order concatenation of the pieces it owns. */
  lemma PiecesAreConserved(events: seq<Event>, i: nat)
    requires i < |events| && Run(events).1[i].Some?
    ensures var (s, owners) := Run(events);
            exists k :: && OnlyAt(s.bucket, k, owners[i].value)
                        && s.bucket[k].text == OwnText(events, owners, owners[i].value)
                        && s.bucket[k].reasoning == OwnThoughts(events, owners, owners[i].value)
  {
    GroupingIsExact(events);
    var (s, owners) := Run(events);
    assert owners[i] in owners;
    var k := TheOnly(s.bucket, owners[i].value);
    assert s.bucket[k] in s.bucket;
  }

  predicate OnlyAt(bucket: seq<Message>, k: int, id: MessageId) {
    0 <= k < |bucket| && bucket[k].id == id && forall l | 0 <= l < |bucket| && bucket[l].id == id :: l == k
  }

  lemma TheOnly(bucket: seq<Message>, id: MessageId) returns (k: int)
    requires Distinct(bucket) && Has(bucket, id)
    ensures OnlyAt(bucket, k, id)
  {
    k :| 0 <= k < |bucket| && bucket[k].id == id;
  }

  /** The client's buckets and open streams, one entry a session key, with the shared counter. */
  class TranscriptStore {
    var buckets: map<string, seq<Message>>
    var openStreams: map<string, Stream>
    var sequence: nat

    ghost function Of(key: string): Session
      reads this
    {
      Session(if key in buckets then buckets[key] else [],
              if key in openStreams then Some(openStreams[key]) else None, sequence)
    }

    constructor ()
      ensures forall key :: Of(key) == NO_MESSAGES
    {
      buckets, openStreams, sequence := map[], map[], 0;
    }

    method Find(bucket: seq<Message>, id: MessageId) returns (found: bool)
      ensures found == Has(bucket, id)
    {
      found := false;
      for i := 0 to |bucket|
        invariant found == Has(bucket[..i], id)
      {
        assert bucket[..i + 1] == bucket[..i] + [bucket[i]];
        if bucket[i].id == id { found := true; }
      }
      assert bucket[..|bucket|] == bucket;
    }

    method CloseStream(key: string)
      modifies this`openStreams
      ensures Of(key) == Step(old(Of(key)), Boundary).0
      ensures forall k | k != key :: Of(k) == old(Of(k))
    {
      openStreams := openStreams - {key};
    }

    /** The message a chunk belongs to, created when there is none. */
    method ChunkMessage(key: string, kind: Kind, messageId: string) returns (id: MessageId)
      modifies this
      ensures (Of(key), id) == Target(old(Of(key)), kind, messageId)
      ensures !Has(old(Of(key)).bucket, id) ==>
                var role := if kind.UserText? then User else Assistant;
                Of(key).bucket == old(Of(key)).bucket + [Message(id, role, "", "")]
      ensures forall k | k != key :: Of(k) == old(Of(k)).(sequence := sequence)
      ensures sequence >= old(sequence)
    {
      var bucket := if key in buckets then buckets[key] else [];
      if messageId != "" {
        openStreams := openStreams - {key};
        id := Native(messageId);
        var existing := Find(bucket, id);
        if !existing { buckets := buckets[key := bucket + [Message(id, RoleOf(kind), "", "")]]; }
        return;
      }
      if key in openStreams && openStreams[key].role == RoleOf(kind) {
        id := Minted(openStreams[key].n);
        var found := Find(bucket, id);
        if found { return; }
      }
      sequence := sequence + 1;
      id := Minted(sequence);
      buckets := buckets[key := bucket + [Message(id, RoleOf(kind), "", "")]];
      openStreams := openStreams[key := Stream(sequence, RoleOf(kind))];
    }

    method OnChunk(key: string, kind: Kind, messageId: string, piece: string)
      modifies this
      ensures Of(key) == Step(old(Of(key)), Chunk(kind, messageId, piece)).0
      ensures forall k | k != key :: Of(k) == Step(old(Of(k)), Elsewhere(sequence - old(sequence))).0
    {
      var id := ChunkMessage(key, kind, messageId);
      var bucket := if key in buckets then buckets[key] else [];
      var copy := [];
      var e := Chunk(kind, messageId, piece);
      for i := 0 to |bucket|
        invariant |copy| == i
        invariant forall k | 0 <= k < i :: copy[k] == Extended(bucket, id, TextPiece(e), ThoughtPiece(e))[k]
      {
        var m := bucket[i];
        if m.id == id {
          m := if kind.AgentThought? then m.(reasoning := m.reasoning + piece) else m.(text := m.text + piece);
          assert m.text == bucket[i].text + TextPiece(e) && m.reasoning == bucket[i].reasoning + ThoughtPiece(e);
        }
        copy := copy + [m];
      }
      assert copy == Extended(bucket, id, TextPiece(e), ThoughtPiece(e));
      buckets := buckets[key := copy];
    }

    method OnTool(key: string, toolId: string)
      modifies this`buckets, this`openStreams
      ensures Of(key) == Step(old(Of(key)), Tool(toolId)).0
      ensures forall k | k != key :: Of(k) == old(Of(k))
    {
      CloseStream(key);
      var bucket := if key in buckets then buckets[key] else [];
      var known := Find(bucket, ToolCard(toolId));
      if !known { buckets := buckets[key := bucket + [Message(ToolCard(toolId), Assistant, "", "")]]; }
    }

    method AppendSent(key: string, text: string)
      modifies this`buckets, this`sequence
      ensures Of(key) == Step(old(Of(key)), Sent(text)).0
      ensures forall k | k != key :: Of(k) == Step(old(Of(k)), Elsewhere(1)).0
    {
      sequence := sequence + 1;
      var bucket := if key in buckets then buckets[key] else [];
      buckets := buckets[key := bucket + [Message(Minted(sequence), User, text, "")]];
    }
  }
}
