/**
  What the history query selects, against the detail read of agent-wrapup-v1.ts, over all runs of
  saves and legacy submits; and a client that follows the cursors while those runs go on.
*/
module HistoryRows {
  import opened Prelude
  import opened Strings
  import opened Wrapup
  import opened WrapupRuns
  import opened History

  datatype Row = Row(
    interaction: Id, endedAt: Option<int>, disposition: Option<string>, recordedAt: int, source: Source, legacy: bool)

  /** The joined result row: its owner must be the interaction's agent of today. */
  function JoinedResult(db: Db, id: Id): Option<WrapupResult>
    requires id in db.interactions
  {
    if id in db.results && db.interactions[id].agent == Some(db.results[id].owner) then Some(db.results[id]) else None
  }

  function RowFor(db: Db, id: Id): Row
    requires id in db.interactions
  {
    var i, result := db.interactions[id], JoinedResult(db, id);
    var completion := if i.policy == LEGACY then FirstEvent(db.events, id) else None;
    Row(id, i.endedAt, i.wrapUpCode,
        if result.Some? then result.value.recordedAt
        else if completion.Some? then completion.value.createdAt
        else if i.endedAt.Some? then i.endedAt.value else i.queuedAt,
        if result.Some? then SERVER_COMMIT else if completion.Some? then LEGACY_EVENT else LEGACY_FALLBACK,
        i.policy == LEGACY)
  }

  /** The WHERE clause. */
  predicate Listed(db: Db, actor: Id, id: Id) {
    && id in db.interactions
    && var i := db.interactions[id];
    && i.agent == Some(actor) && i.voice && i.stage == COMPLETED
    && (i.policy == LEGACY || JoinedResult(db, id).Some?)
  }

  function KeyOf(db: Db, id: Id): Key
    requires id in db.interactions
  {
    Key(RowFor(db, id).recordedAt, id)
  }

  function HistoryKeys(db: Db, actor: Id): set<Key> {
    set id | id in db.interactions && Listed(db, actor, id) :: KeyOf(db, id)
  }

  // ---- list and detail ----

  /**
    In every reachable state the list holds exactly the interactions whose detail can be read, and the
    two agree on what they both show.
  */
  lemma ListMatchesDetail(steps: seq<Step>, actor: Id, resource: string)
    requires actor in Run(EMPTY, steps).db.agents && IsUuid(resource)
    ensures var db, id := Run(EMPTY, steps).db, Lower(resource);
            var detail := ReadWrapup(db, actor, resource);
            && (detail.Ok? <==> Listed(db, actor, id))
            && (detail.Ok? ==>
                  var row := RowFor(db, id);
                  && row.endedAt == db.interactions[id].endedAt
                  && row.interaction == detail.value.interaction && row.disposition == detail.value.disposition
                  && row.recordedAt == detail.value.recordedAt && row.source == detail.value.source
                  && row.legacy == detail.value.legacy)
  {
    var db, id := Run(EMPTY, steps).db, Lower(resource);
    InvRun(steps);
    if id in db.interactions { assert InteractionOk(db, id); }
    if id in db.results { assert ResultOk(db, id); }
  }

  /** Each listed interaction has its one key. */
  lemma KeysAreRows(db: Db, actor: Id, k: Key)
    ensures k in HistoryKeys(db, actor) <==> Listed(db, actor, k.id) && KeyOf(db, k.id) == k
  {
  }

  /** Once saved, an interaction stays in its owner's list, at the same key with the same content, for good. */
  lemma SavedRowLasts(steps: seq<Step>, more: seq<Step>, id: Id)
    requires id in Run(EMPTY, steps).db.results
    ensures var db, later := Run(EMPTY, steps).db, Run(Run(EMPTY, steps), more).db;
            var r := db.results[id];
            && Listed(db, r.owner, id) && Listed(later, r.owner, id)
            && KeyOf(db, id) == KeyOf(later, id) == Key(r.recordedAt, id)
            && RowFor(later, id).disposition == Some(r.disposition) && RowFor(later, id).source == SERVER_COMMIT
            && !RowFor(later, id).legacy
  {
    InvRun(steps);
    RecordsKept(Run(EMPTY, steps), more);
    assert ResultOk(Run(EMPTY, steps).db, id);
    assert ResultOk(Run(Run(EMPTY, steps), more).db, id);
  }

  // ---- the call ----

  datatype Refusal = InvalidLimit | InvalidCursor | NoAgent

  datatype Reply = Reply(items: seq<Row>, nextCursor: Option<Raw>)

  function Rows(db: Db, keys: seq<Key>): (rows: seq<Row>)
    requires forall k :: k in keys ==> k.id in db.interactions
    ensures |rows| == |keys|
    ensures forall n :: 0 <= n < |keys| ==> rows[n] == RowFor(db, keys[n].id)
  {
    if keys == [] then [] else Rows(db, Init(keys)) + [RowFor(db, Last(keys).id)]
  }

  ghost function ReadHistory(db: Db, a: Actor, limit: Option<string>, cursor: Option<Raw>): Result<Reply, Refusal> {
    var n, at := LimitFrom(limit), CursorFrom(cursor, a);
    if n.None? then Err(InvalidLimit)
    else if at.Invalid? then Err(InvalidCursor)
    else if a.user !in db.agents then Err(NoAgent)
    else Ok(PageReply(db, a, if at.At? then Some(at.key) else None, n.value))
  }

  ghost function PageReply(db: Db, a: Actor, at: Option<Key>, n: nat): Reply
    requires n >= 1
  {
    var p := ReadPage(HistoryKeys(db, a.user), at, n);
    PageIsListed(db, a.user, at, n);
    Reply(Rows(db, p.items), if p.next.Some? then Some(Encode(p.next.value, a)) else None)
  }

  lemma PageIsListed(db: Db, actor: Id, at: Option<Key>, n: nat)
    requires n >= 1
    ensures var p := ReadPage(HistoryKeys(db, actor), at, n);
            && (forall k :: k in p.items ==>
                  k in HistoryKeys(db, actor) && k.id in db.interactions && KeyOf(db, k.id) == k)
            && (p.next.Some? ==> p.next.value in p.items)
  {
    PageMeaning(HistoryKeys(db, actor), at, n);
    var p := ReadPage(HistoryKeys(db, actor), at, n);
    forall k | k in p.items ensures k in HistoryKeys(db, actor) && k.id in db.interactions && KeyOf(db, k.id) == k {
      assert k in KeysOf(p.items);
      KeysAreRows(db, actor, k);
    }
  }

  function ItemKey(r: Row): Key { Key(r.recordedAt, r.interaction) }

  function ItemKeys(rows: seq<Row>): (keys: seq<Key>)
    ensures |keys| == |rows|
    ensures forall n :: 0 <= n < |rows| ==> keys[n] == ItemKey(rows[n])
  {
    if rows == [] then [] else ItemKeys(Init(rows)) + [ItemKey(Last(rows))]
  }

  /** A reply shows a page of the listed keys, and its cursor is that page's. */
  lemma ReplyIsPage(db: Db, a: Actor, at: Option<Key>, n: nat)
    requires n >= 1
    ensures var reply, p := PageReply(db, a, at, n), ReadPage(HistoryKeys(db, a.user), at, n);
            && ItemKeys(reply.items) == p.items
            && reply.nextCursor == (if p.next.Some? then Some(Encode(p.next.value, a)) else None)
  {
    PageIsListed(db, a.user, at, n);
    RowsShowKeys(db, ReadPage(HistoryKeys(db, a.user), at, n).items);
  }

  lemma RowsShowKeys(db: Db, keys: seq<Key>)
    requires forall k :: k in keys ==> k.id in db.interactions && KeyOf(db, k.id) == k
    ensures ItemKeys(Rows(db, keys)) == keys
  {
  }

  /** A cursor of version 1 for this very user of this tenant, whose id is a UUID of versions 1 to 5. */
  predicate CursorFits(cursor: Raw, a: Actor) {
    cursor.Decoded? && cursor.version == 1 && cursor.tenant == a.tenant && cursor.user == a.user && IsUuid(cursor.id)
  }

  ghost predicate LimitFits(limit: Option<string>, n: nat) {
    if limit.Some? then 1 <= n <= 100 && limit.value == Decimal(n) else n == 20
  }

  lemma LimitFitsIff(limit: Option<string>, n: nat)
    ensures LimitFits(limit, n) <==> LimitFrom(limit) == Some(n)
  {
    LimitIsDecimal(if limit.Some? then limit.value else "", n);
  }

  /** When the list can be read, and the errors otherwise: limit, then cursor, then agent. */
  lemma HistoryAnswers(db: Db, a: Actor, limit: Option<string>, cursor: Option<Raw>)
    ensures var reply := ReadHistory(db, a, limit, cursor);
            var limited := exists n: nat :: LimitFits(limit, n);
            var placed := cursor.Some? ==> CursorFits(cursor.value, a);
            && (reply == Err(InvalidLimit) <==> !limited)
            && (reply == Err(InvalidCursor) <==> limited && !placed)
            && (reply == Err(NoAgent) <==> limited && placed && a.user !in db.agents)
            && (reply.Ok? <==> limited && placed && a.user in db.agents)
  {
    forall n: nat ensures LimitFits(limit, n) <==> LimitFrom(limit) == Some(n) { LimitFitsIff(limit, n); }
    if LimitFrom(limit).Some? { assert LimitFits(limit, LimitFrom(limit).value); }
  }

  /**
    The newest listed rows below a place, up to a limit, and a cursor for the last of them exactly if
    more are left.
  */
  ghost predicate Shows(db: Db, a: Actor, at: Option<Key>, n: nat, reply: Reply) {
    var below, keys := Below(HistoryKeys(db, a.user), at), ItemKeys(reply.items);
    && Descending(keys) && KeysOf(keys) <= below
    && (forall r :: r in reply.items ==> r.interaction in db.interactions && r == RowFor(db, r.interaction))
    && |reply.items| == (if |below| <= n then |below| else n)
    && (reply.nextCursor == None <==> KeysOf(keys) == below)
    && (reply.nextCursor.Some? ==>
          && reply.items != []
          && var last := Last(reply.items);
          && reply.nextCursor == Some(Decoded(1, a.tenant, a.user, last.recordedAt, last.interaction))
          && forall k :: k in below && k !in KeysOf(keys) ==> Less(k, ItemKey(last)))
  }

  /** What a reply shows. */
  lemma ReplyShows(db: Db, a: Actor, limit: Option<string>, cursor: Option<Raw>, n: nat)
    requires ReadHistory(db, a, limit, cursor).Ok? && LimitFits(limit, n)
    ensures var at := if cursor.Some? then Some(Key(cursor.value.recordedAt, cursor.value.id)) else None;
            Shows(db, a, at, n, ReadHistory(db, a, limit, cursor).value)
  {
    LimitFitsIff(limit, n);
    HistoryAnswers(db, a, limit, cursor);
    PageShows(db, a, if cursor.Some? then Some(Key(cursor.value.recordedAt, cursor.value.id)) else None, n);
  }

  lemma PageShows(db: Db, a: Actor, at: Option<Key>, n: nat)
    requires n >= 1
    ensures Shows(db, a, at, n, PageReply(db, a, at, n))
  {
    PageIsListed(db, a.user, at, n);
    ReplyIsPage(db, a, at, n);
    PageMeaning(HistoryKeys(db, a.user), at, n);
    var reply := PageReply(db, a, at, n);
    if reply.items != [] { assert Last(ItemKeys(reply.items)) == ItemKey(Last(reply.items)); }
  }

  // ---- a client ----

  /** One request of a client: the database as it is then, and the limit asked for. */
  datatype Visit = Visit(db: Db, limit: Option<string>)

  datatype Client = Client(items: seq<Row>, cursor: Option<Raw>, done: bool, failed: bool)

  /** Calls until `nextCursor` is null, each with the cursor of the reply before; an error ends it. */
  ghost function Follow(visits: seq<Visit>, a: Actor): Client
    decreases |visits|
  {
    if visits == [] then Client([], None, false, false)
    else
      var c := Follow(Init(visits), a);
      if c.done || c.failed then c
      else
        match ReadHistory(Last(visits).db, a, Last(visits).limit, c.cursor)
        case Err(_) => c.(failed := true)
        case Ok(reply) => Client(c.items + reply.items, reply.nextCursor, reply.nextCursor.None?, false)
  }

  ghost predicate VisitOk(v: Visit, a: Actor) {
    && LimitFrom(v.limit).Some? && a.user in v.db.agents
    && forall k :: k in HistoryKeys(v.db, a.user) ==> IsUuid(k.id)
  }

  ghost predicate VisitsOk(visits: seq<Visit>, a: Actor) {
    forall n :: 0 <= n < |visits| ==> VisitOk(visits[n], a)
  }

  ghost function CallsOf(visits: seq<Visit>, a: Actor): (calls: seq<Call>)
    requires VisitsOk(visits, a)
    ensures |calls| == |visits| && CallsOk(calls)
    ensures forall n :: 0 <= n < |visits| ==>
              calls[n] == Call(HistoryKeys(visits[n].db, a.user), LimitFrom(visits[n].limit).value)
  {
    if visits == [] then []
    else CallsOf(Init(visits), a) + [Call(HistoryKeys(Last(visits).db, a.user), LimitFrom(Last(visits).limit).value)]
  }

  ghost predicate Follows(c: Client, w: Walk, a: Actor) {
    && !c.failed && c.done == w.done && ItemKeys(c.items) == w.items
    && (w.cursor.Some? ==> IsUuid(w.cursor.value.id))
    && c.cursor == (if w.cursor.Some? then Some(Encode(w.cursor.value, a)) else None)
  }

  /**
    With valid limits, an active agent and ids of UUID versions 1 to 5, no call fails and the client
    walks the pages.
  */
  lemma {:induction false} ClientFollowsWalk(visits: seq<Visit>, a: Actor)
    requires VisitsOk(visits, a)
    ensures Follows(Follow(visits, a), WalkPages(CallsOf(visits, a)), a)
    decreases |visits|
  {
    if visits != [] {
      var v := Last(visits);
      ClientFollowsWalk(Init(visits), a);
      assert VisitOk(v, a);
      var c, w := Follow(Init(visits), a), WalkPages(CallsOf(Init(visits), a));
      assert Init(CallsOf(visits, a)) == CallsOf(Init(visits), a);
      if !w.done { ReplyFollows(c, w, v, a); }
    }
  }

  lemma ReplyFollows(c: Client, w: Walk, v: Visit, a: Actor)
    requires Follows(c, w, a) && !w.done && VisitOk(v, a)
    ensures var reply := ReadHistory(v.db, a, v.limit, c.cursor);
            var p := ReadPage(HistoryKeys(v.db, a.user), w.cursor, LimitFrom(v.limit).value);
            && reply.Ok?
            && Follows(Client(c.items + reply.value.items, reply.value.nextCursor, reply.value.nextCursor.None?, false),
                       Walk(w.items + p.items, p.next, p.next.None?), a)
  {
    var n := LimitFrom(v.limit).value;
    if w.cursor.Some? { CursorRoundTrip(w.cursor.value, a, a); }
    var reply := PageReply(v.db, a, w.cursor, n);
    assert ReadHistory(v.db, a, v.limit, c.cursor) == Ok(reply);
    ReplyIsPage(v.db, a, w.cursor, n);
    PageIsListed(v.db, a.user, w.cursor, n);
    ItemKeysConcat(c.items, reply.items);
  }

  lemma ItemKeysConcat(a: seq<Row>, b: seq<Row>)
    ensures ItemKeys(a + b) == ItemKeys(a) + ItemKeys(b)
  {
  }

  /** Each request finds the database as it is after some steps more. */
  ghost predicate DuringRun(visits: seq<Visit>, start: World, parts: seq<seq<Step>>) {
    && |parts| == |visits|
    && forall n :: 0 <= n < |visits| ==> visits[n].db == Run(start, parts[n]).db
  }

  /**
    A client that follows the cursors to the end while saves, submits and other changes go on sees
    every interaction that had been saved when it began exactly once, with the committed time.
  */
  lemma SavedIsSeenOnce(visits: seq<Visit>, a: Actor, steps: seq<Step>, parts: seq<seq<Step>>, id: Id)
    requires DuringRun(visits, Run(EMPTY, steps), parts)
    requires VisitsOk(visits, a)
    requires var db := Run(EMPTY, steps).db; id in db.results && db.results[id].owner == a.user
    requires Follow(visits, a).done
    ensures var items := Follow(visits, a).items;
            exists n ::
              && 0 <= n < |items| && items[n].interaction == id
              && items[n].recordedAt == Run(EMPTY, steps).db.results[id].recordedAt
              && forall m :: 0 <= m < |items| && items[m].interaction == id ==> m == n
  {
    var calls, items := CallsOf(visits, a), Follow(visits, a).items;
    var key := Key(Run(EMPTY, steps).db.results[id].recordedAt, id);
    ClientFollowsWalk(visits, a);
    var keys := WalkPages(calls).items;
    forall n | 0 <= n < |calls| ensures forall k :: k in calls[n].table && k.id == id <==> k == key {
      SavedRowLasts(steps, parts[n], id);
      forall k ensures k in calls[n].table && k.id == id <==> k == key {
        KeysAreRows(visits[n].db, a.user, k);
      }
    }
    FinishedWalkIsComplete(calls, key);
    assert key in keys;
    var n :| 0 <= n < |keys| && keys[n] == key;
    forall m | 0 <= m < |items| && items[m].interaction == id ensures m == n {
      assert keys[m] == ItemKey(items[m]);
      FinishedWalkIsComplete(calls, keys[m]);
      assert keys[m] == key;
      DescendingDistinct(keys, m, n);
    }
    assert keys[n] == ItemKey(items[n]);
  }

  lemma DescendingDistinct(keys: seq<Key>, m: nat, n: nat)
    requires Descending(keys) && m < |keys| && n < |keys| && keys[m] == keys[n]
    ensures m == n
  {
    LessOrder();
  }
}
