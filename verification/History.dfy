/**
  The agent's history, agent-history.ts: keyset pages over (recorded_at, interaction_id), newest
  first, and the cursor that carries the last key of a page to the next call.
*/
module History {
  import opened Prelude
  import opened Wrapup

  /**
    Interaction ids are UUIDs. PostgreSQL compares their bytes, which for lower-case texts, with the
    dashes all in the same places, is the order of the characters.
  */
  datatype Key = Key(recordedAt: int, id: string)

  predicate TextLess(a: string, b: string) {
    if a == [] || b == [] then a == [] && b != []
    else a[0] < b[0] || (a[0] == b[0] && TextLess(a[1..], b[1..]))
  }

  /** Row comparison `a < b` of SQL. */
  predicate Less(a: Key, b: Key) {
    a.recordedAt < b.recordedAt || (a.recordedAt == b.recordedAt && TextLess(a.id, b.id))
  }

  lemma {:induction false} TextOrder(a: string, b: string, c: string)
    ensures TextLess(a, b) && TextLess(b, c) ==> TextLess(a, c)
    ensures !TextLess(a, a)
    ensures a == b || TextLess(a, b) || TextLess(b, a)
  {
    if a != [] && b != [] {
      if c != [] { TextOrder(a[1..], b[1..], c[1..]); } else { TextOrder(a[1..], b[1..], c); }
      assert a[0] == b[0] && a[1..] == b[1..] ==> [a[0]] + a[1..] == [b[0]] + b[1..];
    } else if a != [] {
      TextOrder(a[1..], [], []);
    }
  }

  /** A strict total order. */
  lemma LessOrder()
    ensures forall a, b, c :: Less(a, b) && Less(b, c) ==> Less(a, c)
    ensures forall a :: !Less(a, a)
    ensures forall a, b :: a == b || Less(a, b) || Less(b, a)
  {
    forall a, b, c ensures Less(a, b) && Less(b, c) ==> Less(a, c) { TextOrder(a.id, b.id, c.id); }
    forall a ensures !Less(a, a) { TextOrder(a.id, a.id, a.id); }
    forall a, b ensures a == b || Less(a, b) || Less(b, a) { TextOrder(a.id, b.id, b.id); }
  }

  predicate Descending(keys: seq<Key>) {
    forall i, j :: 0 <= i < j < |keys| ==> Less(keys[j], keys[i])
  }

  function KeysOf(keys: seq<Key>): set<Key> {
    set k | k in keys
  }

  // ---- sorting a table ----

  predicate IsGreatest(s: set<Key>, k: Key) {
    k in s && forall j :: j in s && j != k ==> Less(j, k)
  }

  lemma {:induction false} GreatestExists(s: set<Key>)
    requires s != {}
    ensures exists k :: IsGreatest(s, k)
    decreases s
  {
    LessOrder();
    var some :| some in s;
    if s == {some} {
      assert IsGreatest(s, some);
    } else {
      GreatestExists(s - {some});
      var rest :| IsGreatest(s - {some}, rest);
      var k := if Less(some, rest) then rest else some;
      forall j | j in s && j != k ensures Less(j, k) {
        assert j != some ==> j in s - {some};
      }
      assert IsGreatest(s, k);
    }
  }

  ghost function Greatest(s: set<Key>): (k: Key)
    requires s != {}
    ensures IsGreatest(s, k)
  {
    GreatestExists(s);
    var k :| IsGreatest(s, k);
    k
  }

  /** `ORDER BY recorded_at DESC, interaction_id DESC` */
  ghost function Sorted(s: set<Key>): seq<Key>
    decreases s
  {
    if s == {} then []
    else
      var k := Greatest(s);
      [k] + Sorted(s - {k})
  }

  lemma {:induction false} SortedMeaning(s: set<Key>)
    ensures KeysOf(Sorted(s)) == s && |Sorted(s)| == |s| && Descending(Sorted(s))
    decreases s
  {
    if s != {} {
      var k := Greatest(s);
      SortedMeaning(s - {k});
      PrependGreatest(s, k, Sorted(s - {k}));
    }
  }

  lemma PrependGreatest(s: set<Key>, k: Key, rest: seq<Key>)
    requires IsGreatest(s, k) && KeysOf(rest) == s - {k} && |rest| == |s - {k}| && Descending(rest)
    ensures KeysOf([k] + rest) == s && |[k] + rest| == |s| && Descending([k] + rest)
  {
    var all := [k] + rest;
    forall i | 0 < i < |all| ensures all[i] in s && Less(all[i], k) {
      assert all[i] == rest[i - 1] && rest[i - 1] in KeysOf(rest);
    }
    forall j ensures j in KeysOf(all) <==> j in s {
      if j in s && j != k { assert j in KeysOf(rest); }
    }
  }

  /** A set has only one descending listing. */
  lemma {:induction false} SortedUnique(keys: seq<Key>)
    requires Descending(keys)
    ensures keys == Sorted(KeysOf(keys))
  {
    LessOrder();
    var s := KeysOf(keys);
    if keys != [] {
      assert keys[0] in s;
      assert IsGreatest(s, keys[0]);
      assert Greatest(s) == keys[0];
      var rest := keys[1..];
      assert KeysOf(rest) == s - {keys[0]} by {
        assert forall i :: 0 < i < |keys| ==> keys[i] == rest[i - 1] && keys[i] != keys[0];
      }
      SortedUnique(rest);
      assert keys == [keys[0]] + rest;
    } else {
      assert s == {};
    }
  }

  // ---- one page ----

  function Below(table: set<Key>, cursor: Option<Key>): set<Key> {
    set k | k in table && (cursor.Some? ==> Less(k, cursor.value))
  }

  datatype Page = Page(items: seq<Key>, next: Option<Key>)

  /** The query fetches one row more than the page holds; the extra row only decides about a cursor. */
  function Cut(sorted: seq<Key>, limit: nat): Page
    requires limit >= 1
  {
    var rows := if |sorted| > limit + 1 then sorted[..limit + 1] else sorted;
    var items := if |rows| > limit then rows[..limit] else rows;
    Page(items, if |rows| > limit then Some(Last(items)) else None)
  }

  ghost function ReadPage(table: set<Key>, cursor: Option<Key>, limit: nat): Page
    requires limit >= 1
  {
    Cut(Sorted(Below(table, cursor)), limit)
  }

  /** The newest rows below the cursor, up to the limit; no next cursor exactly when they are all. */
  ghost predicate IsPage(below: set<Key>, limit: nat, p: Page) {
    && Descending(p.items) && KeysOf(p.items) <= below
    && |p.items| == (if |below| <= limit then |below| else limit)
    && (p.next == None <==> KeysOf(p.items) == below)
    && (p.next.Some? ==> p.items != [] && p.next == Some(Last(p.items))
                         && forall k :: k in below && k !in KeysOf(p.items) <==> k in below && Less(k, p.next.value))
  }

  lemma PageMeaning(table: set<Key>, cursor: Option<Key>, limit: nat)
    requires limit >= 1
    ensures IsPage(Below(table, cursor), limit, ReadPage(table, cursor, limit))
  {
    var below := Below(table, cursor);
    SortedMeaning(below);
    FirstRows(Sorted(below), limit);
  }

  lemma FirstRows(sorted: seq<Key>, limit: nat)
    requires limit >= 1 && Descending(sorted) && |KeysOf(sorted)| == |sorted|
    ensures IsPage(KeysOf(sorted), limit, Cut(sorted, limit))
  {
    var p := Cut(sorted, limit);
    assert p.items == sorted[..|p.items|];
    PrefixKeys(sorted, |p.items|);
    if p.next.Some? {
      forall k | k in KeysOf(sorted) ensures k !in KeysOf(p.items) <==> Less(k, p.next.value) {
        TailIsBelow(sorted, limit, k);
      }
    }
  }

  lemma PrefixKeys(all: seq<Key>, n: nat)
    requires Descending(all) && n <= |all|
    ensures Descending(all[..n]) && KeysOf(all[..n]) <= KeysOf(all)
    ensures forall k :: k in KeysOf(all) ==> (k in KeysOf(all[..n]) <==> k !in KeysOf(all[n..]))
    ensures n < |all| ==> all[n] in KeysOf(all) && all[n] !in KeysOf(all[..n])
  {
    LessOrder();
    assert all == all[..n] + all[n..];
    forall i, j | 0 <= i < n <= j < |all| ensures all[i] != all[j] {
      assert Less(all[j], all[i]);
    }
    forall k ensures !(k in all[..n] && k in all[n..]) {
      assert k in all[n..] ==> exists j :: n <= j < |all| && all[j] == k;
      assert k in all[..n] ==> exists i :: 0 <= i < n && all[i] == k;
    }
    assert n < |all| ==> all[n..][0] == all[n];
  }

  // ---- walking the pages ----

  /** One call: the table as it is then, and the limit asked for. */
  datatype Call = Call(table: set<Key>, limit: nat)

  datatype Walk = Walk(items: seq<Key>, cursor: Option<Key>, done: bool)

  predicate CallsOk(calls: seq<Call>) {
    forall k :: 0 <= k < |calls| ==> calls[k].limit >= 1
  }

  /** The calls so far, each with the cursor the one before returned, until there is none. */
  ghost function WalkPages(calls: seq<Call>): Walk
    requires CallsOk(calls)
    decreases |calls|
  {
    if calls == [] then Walk([], None, false)
    else
      var before := WalkPages(Init(calls));
      if before.done then before
      else
        assert Last(calls) in calls;
        var p := ReadPage(Last(calls).table, before.cursor, Last(calls).limit);
        Walk(before.items + p.items, p.next, p.next.None?)
  }

  ghost predicate AlwaysThere(calls: seq<Call>, k: Key) {
    forall i :: 0 <= i < |calls| ==> k in calls[i].table
  }

  ghost predicate SometimeThere(calls: seq<Call>, k: Key) {
    exists i :: 0 <= i < |calls| && k in calls[i].table
  }

  /** The keys a walk has passed: all of them when it is done, else those from its cursor upwards. */
  predicate Passed(w: Walk, k: Key) {
    w.done || (w.cursor.Some? && !Less(k, w.cursor.value))
  }

  ghost predicate OrderOk(w: Walk) {
    && Descending(w.items)
    && (!w.done ==> if w.items == [] then w.cursor == None else w.cursor == Some(Last(w.items)))
  }

  ghost predicate CompleteFor(calls: seq<Call>, w: Walk, k: Key) {
    && (k in w.items ==> SometimeThere(calls, k))
    && (AlwaysThere(calls, k) && Passed(w, k) ==> k in w.items)
  }

  lemma {:induction false} WalkOrder(calls: seq<Call>)
    requires CallsOk(calls)
    ensures OrderOk(WalkPages(calls))
    decreases |calls|
  {
    if calls != [] {
      WalkOrder(Init(calls));
      var before := WalkPages(Init(calls));
      if !before.done {
        PageMeaning(Last(calls).table, before.cursor, Last(calls).limit);
        var p := ReadPage(Last(calls).table, before.cursor, Last(calls).limit);
        AddPageOrder(before, Last(calls).table, Last(calls).limit, p);
      }
    }
  }

  lemma AddPageOrder(w: Walk, table: set<Key>, limit: nat, p: Page)
    requires limit >= 1 && OrderOk(w) && !w.done && IsPage(Below(table, w.cursor), limit, p)
    ensures OrderOk(Walk(w.items + p.items, p.next, p.next.None?))
  {
    LessOrder();
    forall i, j | 0 <= i < |w.items| && 0 <= j < |p.items| ensures Less(p.items[j], w.items[i]) {
      assert p.items[j] in KeysOf(p.items);
      assert Less(p.items[j], Last(w.items));
    }
    DescendingConcat(w.items, p.items);
  }

  lemma DescendingConcat(a: seq<Key>, b: seq<Key>)
    requires Descending(a) && Descending(b) && forall i, j :: 0 <= i < |a| && 0 <= j < |b| ==> Less(b[j], a[i])
    ensures Descending(a + b)
  {
  }

  lemma {:induction false} WalkComplete(calls: seq<Call>, k: Key)
    requires CallsOk(calls) && calls != []
    ensures CompleteFor(calls, WalkPages(calls), k)
    decreases |calls|
  {
    var before, last := WalkPages(Init(calls)), Last(calls);
    if Init(calls) != [] {
      WalkComplete(Init(calls), k);
      MoreCalls(calls, before, k);
    }
    if !before.done {
      PageMeaning(last.table, before.cursor, last.limit);
      AddPageComplete(calls, before, ReadPage(last.table, before.cursor, last.limit), k);
    }
  }

  lemma MoreCalls(calls: seq<Call>, w: Walk, k: Key)
    requires calls != [] && CompleteFor(Init(calls), w, k)
    ensures CompleteFor(calls, w, k)
  {
    assert AlwaysThere(calls, k) ==> AlwaysThere(Init(calls), k);
    if SometimeThere(Init(calls), k) {
      var i :| 0 <= i < |Init(calls)| && k in Init(calls)[i].table;
      assert calls[i] == Init(calls)[i];
    }
  }

  /** A page returns the rows of its table between its own cursor and the next. */
  lemma AddPageComplete(calls: seq<Call>, w: Walk, p: Page, k: Key)
    requires CallsOk(calls) && calls != [] && !w.done
             && IsPage(Below(Last(calls).table, w.cursor), Last(calls).limit, p)
    requires CompleteFor(calls, w, k) || w == Walk([], None, false)
    ensures CompleteFor(calls, Walk(w.items + p.items, p.next, p.next.None?), k)
  {
    var below := Below(Last(calls).table, w.cursor);
    assert calls[|calls| - 1] == Last(calls);
    assert k in p.items <==> k in KeysOf(p.items);
    assert k in Last(calls).table && !Passed(w, k) ==> k in below;
  }

  /**
    A finished walk, with any limits and any insertions or deletions between the pages, returns
    strictly descending keys, so none twice; every row that was there at each call; and only rows
    that were there at some call.
  */
  lemma FinishedWalkIsComplete(calls: seq<Call>, k: Key)
    requires CallsOk(calls) && WalkPages(calls).done
    ensures var items := WalkPages(calls).items;
            && Descending(items)
            && (AlwaysThere(calls, k) ==> k in items)
            && (k in items ==> SometimeThere(calls, k))
  {
    WalkOrder(calls);
    WalkComplete(calls, k);
  }

  function Repeat(table: set<Key>, limits: seq<nat>): (calls: seq<Call>)
    ensures |calls| == |limits|
    ensures forall k :: 0 <= k < |limits| ==> calls[k] == Call(table, limits[k])
  {
    if limits == [] then [] else Repeat(table, Init(limits)) + [Call(table, Last(limits))]
  }

  /** Where a walk over a table that stands still is after some calls: `all` is the table's listing. */
  ghost predicate AtSlice(all: seq<Key>, w: Walk, calls: nat) {
    && w.items <= all
    && (w.done ==> w.items == all && w.cursor == None)
    && (!w.done ==> |w.items| >= calls && KeysOf(all[|w.items|..]) == Below(KeysOf(all), w.cursor))
  }

  /** On a table that stands still the pages are consecutive slices of the one sorted listing. */
  lemma {:induction false} StaticWalkIsSlice(all: seq<Key>, limits: seq<nat>)
    requires Descending(all) && forall k :: 0 <= k < |limits| ==> limits[k] >= 1
    ensures CallsOk(Repeat(KeysOf(all), limits))
    ensures AtSlice(all, WalkPages(Repeat(KeysOf(all), limits)), |limits|)
    decreases |limits|
  {
    var calls := Repeat(KeysOf(all), limits);
    if limits == [] {
      assert all[0..] == all;
      assert Below(KeysOf(all), None) == KeysOf(all);
    } else {
      StaticWalkIsSlice(all, Init(limits));
      assert Init(calls) == Repeat(KeysOf(all), Init(limits));
      var before := WalkPages(Init(calls));
      if !before.done { SliceAdds(all, before, Last(limits), |limits| - 1); }
    }
  }

  lemma SliceAdds(all: seq<Key>, w: Walk, limit: nat, n: nat)
    requires Descending(all) && limit >= 1 && !w.done && AtSlice(all, w, n)
    ensures var p := ReadPage(KeysOf(all), w.cursor, limit);
            AtSlice(all, Walk(w.items + p.items, p.next, p.next.None?), n + 1)
  {
    var m := |w.items|;
    SliceIsPage(all, m, w.cursor, limit);
    CutSlice(all, m, limit);
    assert w.items == all[..m];
    var p := Cut(all[m..], limit);
    if p.next.Some? { TailKeys(all, m + limit); }
    AddSlice(all, w, p, limit, n);
  }

  lemma AddSlice(all: seq<Key>, w: Walk, p: Page, limit: nat, n: nat)
    requires limit >= 1 && |w.items| >= n && w.items + p.items <= all
    requires p.next.None? ==> w.items + p.items == all
    requires p.next.Some? ==> |p.items| == limit && KeysOf(all[|w.items| + limit..]) == Below(KeysOf(all), p.next)
    ensures AtSlice(all, Walk(w.items + p.items, p.next, p.next.None?), n + 1)
  {
  }

  lemma SliceIsPage(all: seq<Key>, m: nat, cursor: Option<Key>, limit: nat)
    requires Descending(all) && m <= |all| && limit >= 1 && KeysOf(all[m..]) == Below(KeysOf(all), cursor)
    ensures ReadPage(KeysOf(all), cursor, limit) == Cut(all[m..], limit)
  {
    SuffixDescending(all, m);
    SortedUnique(all[m..]);
  }

  /** From a point of the listing, a page is the next slice. */
  lemma CutSlice(all: seq<Key>, m: nat, limit: nat)
    requires limit >= 1 && m <= |all|
    ensures var p := Cut(all[m..], limit);
            && all[..m] + p.items <= all
            && (p.next.None? ==> all[..m] + p.items == all)
            && (p.next.Some? ==> |p.items| == limit && m + limit < |all| && p.next == Some(all[m + limit - 1]))
  {
    var p := Cut(all[m..], limit);
    assert all[..m] + p.items == all[..m + |p.items|];
  }

  lemma TailKeys(all: seq<Key>, m: nat)
    requires Descending(all) && 0 < m <= |all|
    ensures KeysOf(all[m..]) == Below(KeysOf(all), Some(all[m - 1]))
  {
    forall k ensures k in KeysOf(all[m..]) <==> k in Below(KeysOf(all), Some(all[m - 1])) {
      TailIsBelow(all, m, k);
    }
  }

  lemma SuffixDescending(all: seq<Key>, n: nat)
    requires Descending(all) && n <= |all|
    ensures Descending(all[n..])
  {
  }

  /** In a descending listing, the keys after a position are those below the key before it. */
  lemma TailIsBelow(all: seq<Key>, m: nat, k: Key)
    requires Descending(all) && 0 < m <= |all|
    ensures k in KeysOf(all[m..]) <==> k in KeysOf(all) && Less(k, all[m - 1])
  {
    LessOrder();
    if k in KeysOf(all) {
      var i :| 0 <= i < |all| && all[i] == k;
      if i >= m { assert all[m..][i - m] == k; }
    }
    if k in KeysOf(all[m..]) {
      var i :| 0 <= i < |all[m..]| && all[m..][i] == k;
      assert all[m + i] == k;
    }
  }

  /** A walk over a table that stands still ends after at most one call per row, plus one, with the sorted table. */
  lemma StaticWalkTerminates(table: set<Key>, limits: seq<nat>)
    requires (forall k :: 0 <= k < |limits| ==> limits[k] >= 1) && |limits| > |table|
    ensures CallsOk(Repeat(table, limits))
    ensures WalkPages(Repeat(table, limits)) == Walk(Sorted(table), None, true)
  {
    SortedMeaning(table);
    StaticWalkIsSlice(Sorted(table), limits);
  }

  // ---- the cursor ----

  /** The decoded JSON object of a cursor; `Garbled` is any text that does not decode to one. */
  datatype Raw = Garbled | Decoded(version: int, tenant: string, user: string, recordedAt: int, id: string)

  datatype Actor = Actor(tenant: string, user: string)

  function Encode(k: Key, a: Actor): Raw { Decoded(1, a.tenant, a.user, k.recordedAt, k.id) }

  datatype Cursor = NoCursor | At(key: Key) | Invalid

  function CursorFrom(value: Option<Raw>, a: Actor): Cursor {
    match value
    case None => NoCursor
    case Some(Garbled) => Invalid
    case Some(Decoded(version, tenant, user, recordedAt, id)) =>
      if version != 1 || tenant != a.tenant || user != a.user || !IsUuid(id) then Invalid else At(Key(recordedAt, id))
  }

  /**
    A cursor handed out is read back as the key it was made from by the same user and rejected for
    anyone else, provided the interaction id is a UUID of versions 1 to 5; with any other id the
    server rejects its own cursor.
  */
  lemma CursorRoundTrip(k: Key, a: Actor, b: Actor)
    ensures CursorFrom(Some(Encode(k, a)), b) == (if a == b && IsUuid(k.id) then At(k) else Invalid)
  {
  }

  /** `^(?:[1-9]|[1-9][0-9]|100)$`, 20 when absent. */
  function LimitFrom(value: Option<string>): (limit: Option<nat>)
    ensures limit.Some? ==> 1 <= limit.value <= 100
  {
    if value.None? then Some(20)
    else
      var s := value.value;
      if |s| == 1 && '1' <= s[0] <= '9' then Some((s[0] - '0') as nat)
      else if |s| == 2 && '1' <= s[0] <= '9' && '0' <= s[1] <= '9' then
        Some(10 * (s[0] - '0') as nat + (s[1] - '0') as nat)
      else if s == "100" then Some(100)
      else None
  }

  /** A number as it is usually written. */
  function Decimal(n: nat): (s: string)
    ensures s != []
  {
    if n < 10 then ["0123456789"[n]] else Decimal(n / 10) + ["0123456789"[n % 10]]
  }

  /** Accepted are exactly the usual spellings of 1 to 100, each for its number; without a limit it is 20. */
  lemma LimitIsDecimal(s: string, n: nat)
    ensures LimitFrom(Some(s)) == Some(n) <==> 1 <= n <= 100 && s == Decimal(n)
    ensures LimitFrom(None) == Some(20)
  {
    if 1 <= n <= 9 {
      OneDigit(s, n);
    } else if 10 <= n <= 99 {
      TwoDigits(s, n);
    } else if n == 100 {
      assert Decimal(10) == Decimal(1) + "0" == "10";
      assert Decimal(100) == Decimal(10) + "0" == "100";
    }
  }

  lemma Digits(k: nat)
    requires k < 10
    ensures "0123456789"[k] == '0' + k as char
  {
  }

  lemma OneDigit(s: string, n: nat)
    requires 1 <= n <= 9
    ensures LimitFrom(Some(s)) == Some(n) <==> s == Decimal(n)
  {
    Digits(n);
    assert Decimal(n) == ['0' + n as char];
    if LimitFrom(Some(s)) == Some(n) {
      assert |s| == 1 && s[0] == '0' + n as char;
    }
  }

  lemma TwoDigits(s: string, n: nat)
    requires 10 <= n <= 99
    ensures LimitFrom(Some(s)) == Some(n) <==> s == Decimal(n)
  {
    Digits(n / 10);
    Digits(n % 10);
    assert Decimal(n) == ['0' + (n / 10) as char] + ['0' + (n % 10) as char];
    if LimitFrom(Some(s)) == Some(n) {
      assert |s| == 2 && s[0] == '0' + (n / 10) as char && s[1] == '0' + (n % 10) as char;
    }
  }

  /** Every limit from 1 to 100 has exactly one accepted spelling. */
  lemma LimitSpelledOnce(s: string, t: string)
    requires LimitFrom(Some(s)).Some? && LimitFrom(Some(s)) == LimitFrom(Some(t))
    ensures s == t
  {
    assert |s| == |t|;
    if |s| <= 2 { assert forall k :: 0 <= k < |s| ==> s[k] == t[k]; }
  }
}
