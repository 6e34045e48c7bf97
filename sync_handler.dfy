/** The webhook handler: a GitLab issue webhook becomes calendar calls for the
    issue's assignees, through a read-through cache over the credential
    store. The Google Calendar client is modelled by the trace of calls made
    to it; whether an update succeeds is an oracle. */
module SyncHandler {
  import opened Wrappers
  import opened CredentialStore
  import opened EventMapper

  /** What `get_user` caches per username: the table item and the live
      credentials built from its bundle. */
  datatype UserEntry = UserEntry(item: Linkage, creds: Credentials)

  function EntryOf(item: Linkage): UserEntry {
    UserEntry(item, item.credentials)
  }

  // ---------------------------------------------------------------------------
  // The credential cache on values.

  /** What `get_user` returns: the cached entry, else the entry built from the
      store's item, else nothing. */
  function Resolve(cache: map<string, UserEntry>, items: map<string, Linkage>, username: string): Option<UserEntry> {
    if username in cache then Some(cache[username])
    else if username in items then Some(EntryOf(items[username]))
    else None
  }

  /** The cache after `get_user`: a store hit is added, nothing else changes. */
  function CacheAfter(cache: map<string, UserEntry>, items: map<string, Linkage>, username: string): map<string, UserEntry> {
    if username !in cache && username in items then cache[username := EntryOf(items[username])] else cache
  }

  /** The store reads `get_user` makes: none on a cache hit. */
  function StoreReads(cache: map<string, UserEntry>, username: string): seq<string> {
    if username in cache then [] else [username]
  }

  /** A lookup never changes what any later lookup returns, and once an entry
      is cached it is returned whatever the store holds afterwards. */
  lemma LookupIsStable(cache: map<string, UserEntry>, items: map<string, Linkage>, username: string, other: string, later: map<string, Linkage>)
    ensures Resolve(CacheAfter(cache, items, username), items, other) == Resolve(cache, items, other)
    ensures Resolve(cache, items, username).Some? ==>
      Resolve(CacheAfter(cache, items, username), later, username) == Resolve(cache, items, username)
  {
  }

  // ---------------------------------------------------------------------------
  // The calendar calls.

  datatype CalendarCall =
    | Insert(calendarId: string, creds: Credentials, event: CalendarEvent)
    | Update(calendarId: string, creds: Credentials, eventId: int, event: CalendarEvent)

  const OpenAction := "open"

  predicate IsUpdateAction(action: Option<string>) {
    action == Some("reopen") || action == Some("update") || action == Some("close")
  }

  /** The calls made for one configured assignee. */
  function CallsFor(action: Option<string>, user: UserEntry, event: CalendarEvent, updateOk: bool): (calls: seq<CalendarCall>)
    ensures action == Some("open") ==> calls == [Insert(user.item.calendarId, user.creds, event)]
    ensures IsUpdateAction(action) ==>
      && 1 <= |calls| <= 2
      && calls[0] == Update(user.item.calendarId, user.creds, event.id, event)
      && (|calls| == 2 <==> !updateOk)
      && (|calls| == 2 ==> calls[1] == Insert(user.item.calendarId, user.creds, event))
    ensures action != Some("open") && !IsUpdateAction(action) ==> calls == []
  {
    var calendarId := user.item.calendarId;
    if action == Some(OpenAction) then [Insert(calendarId, user.creds, event)]
    else if IsUpdateAction(action) then
      [Update(calendarId, user.creds, event.id, event)] + (if updateOk then [] else [Insert(calendarId, user.creds, event)])
    else []
  }

  // ---------------------------------------------------------------------------
  // `do` on values.

  /** The webhook payload, already parsed from the request body. */
  datatype Webhook = Webhook(objectKind: Option<string>, issue: Issue, assignees: seq<string>)

  /** What one webhook delivery changes: the cache, the calls made and the
      store reads. */
  datatype Effect = Effect(cache: map<string, UserEntry>, calls: seq<CalendarCall>, lookups: seq<string>)

  /** The assignee loop from position `i`: resolve the assignee, stop at the
      first one that is not configured, otherwise make its calls and go on. */
  function AssigneeLoop(
    names: seq<string>, i: nat, action: Option<string>, event: CalendarEvent,
    items: map<string, Linkage>, updateSucceeds: nat -> bool, st: Effect): Effect
    requires i <= |names|
    decreases |names| - i
  {
    if i == |names| then st
    else
      var u := names[i];
      var next := st.(cache := CacheAfter(st.cache, items, u), lookups := st.lookups + StoreReads(st.cache, u));
      match Resolve(st.cache, items, u)
      case None => next
      case Some(user) =>
        AssigneeLoop(names, i + 1, action, event, items, updateSucceeds,
          next.(calls := next.calls + CallsFor(action, user, event, updateSucceeds(i))))
  }

  /** `do`: the effect of one webhook delivery, or the mapper's exception. */
  function Sync(hook: Webhook, cache: map<string, UserEntry>, items: map<string, Linkage>, updateSucceeds: nat -> bool): (r: Result<Effect, MapError>)
    ensures hook.objectKind != Some("issue") ==> r == Success(Effect(cache, [], []))
    ensures hook.assignees == [] ==> r == Success(Effect(cache, [], []))
    ensures hook.objectKind == Some("issue") && hook.assignees != [] ==>
      match CreateCalendarBody(hook.issue)
      case Failure(e) => r == Failure(e)
      case Success(None) => r == Success(Effect(cache, [], []))
      case Success(Some(_)) => r.Success?
  {
    if hook.objectKind != Some("issue") || hook.assignees == [] then Success(Effect(cache, [], []))
    else
      var body :- CreateCalendarBody(hook.issue);
      match body
      case None => Success(Effect(cache, [], []))
      case Some(event) =>
        Success(AssigneeLoop(hook.assignees, 0, hook.issue.action, event, items, updateSucceeds, Effect(cache, [], [])))
  }

  // ---------------------------------------------------------------------------
  // What a delivery does, stated without the loop.

  /** How many assignees from position `i` on resolve to a configured user
      before the first one that does not. */
  function ConfiguredRun(names: seq<string>, i: nat, cache: map<string, UserEntry>, items: map<string, Linkage>): (n: nat)
    requires i <= |names|
    ensures i + n <= |names|
    ensures forall j :: i <= j < i + n ==> Resolve(cache, items, names[j]).Some?
    ensures i + n < |names| ==> Resolve(cache, items, names[i + n]).None?
    decreases |names| - i
  {
    if i == |names| || Resolve(cache, items, names[i]).None? then 0
    else 1 + ConfiguredRun(names, i + 1, cache, items)
  }

  /** The calls for the first `n` assignees, in payload order, each with the
      user its lookup finds. */
  function PlannedCalls(
    names: seq<string>, n: nat, action: Option<string>, event: CalendarEvent,
    cache: map<string, UserEntry>, items: map<string, Linkage>, updateSucceeds: nat -> bool): seq<CalendarCall>
    requires n <= |names|
    requires forall j :: 0 <= j < n ==> Resolve(cache, items, names[j]).Some?
  {
    if n == 0 then []
    else
      PlannedCalls(names, n - 1, action, event, cache, items, updateSucceeds)
        + CallsFor(action, Resolve(cache, items, names[n - 1]).value, event, updateSucceeds(n - 1))
  }

  lemma {:induction false} AssigneeLoopMakesPlannedCalls(
    names: seq<string>, i: nat, action: Option<string>, event: CalendarEvent,
    items: map<string, Linkage>, updateSucceeds: nat -> bool, st: Effect, cache0: map<string, UserEntry>)
    requires i <= |names|
    requires forall v :: Resolve(st.cache, items, v) == Resolve(cache0, items, v)
    requires forall j :: 0 <= j < i ==> Resolve(cache0, items, names[j]).Some?
    requires st.calls == PlannedCalls(names, i, action, event, cache0, items, updateSucceeds)
    ensures i + ConfiguredRun(names, i, cache0, items) == ConfiguredRun(names, 0, cache0, items)
    ensures AssigneeLoop(names, i, action, event, items, updateSucceeds, st).calls
      == PlannedCalls(names, ConfiguredRun(names, 0, cache0, items), action, event, cache0, items, updateSucceeds)
    decreases |names| - i
  {
    LeadingRun(names, i, cache0, items);
    if i < |names| {
      var u := names[i];
      var next := st.(cache := CacheAfter(st.cache, items, u), lookups := st.lookups + StoreReads(st.cache, u));
      assert Resolve(st.cache, items, u) == Resolve(cache0, items, u);
      match Resolve(st.cache, items, u)
      case None =>
      case Some(user) =>
        forall v ensures Resolve(next.cache, items, v) == Resolve(cache0, items, v) {
          LookupIsStable(st.cache, items, u, v, items);
        }
        AssigneeLoopMakesPlannedCalls(names, i + 1, action, event, items, updateSucceeds,
          next.(calls := next.calls + CallsFor(action, user, event, updateSucceeds(i))), cache0);
    }
  }

  /** When the first `i` assignees are configured, the run from 0 is `i` plus
      the run from `i`. */
  lemma {:induction false} LeadingRun(names: seq<string>, i: nat, cache: map<string, UserEntry>, items: map<string, Linkage>)
    requires i <= |names|
    requires forall j :: 0 <= j < i ==> Resolve(cache, items, names[j]).Some?
    ensures i + ConfiguredRun(names, i, cache, items) == ConfiguredRun(names, 0, cache, items)
  {
    if i > 0 {
      LeadingRun(names, i - 1, cache, items);
    }
  }

  /** The calls a delivery makes: for an issue event with assignees and an
      event body, the calls for each assignee in payload order up to the
      first one that is not configured, and for none from that one on;
      otherwise none at all. */
  lemma DeliveryCalls(hook: Webhook, cache: map<string, UserEntry>, items: map<string, Linkage>, updateSucceeds: nat -> bool)
    requires Sync(hook, cache, items, updateSucceeds).Success?
    ensures
      var calls := Sync(hook, cache, items, updateSucceeds).value.calls;
      if hook.objectKind == Some("issue") && hook.assignees != [] && CreateCalendarBody(hook.issue).value.Some? then
        calls == PlannedCalls(hook.assignees, ConfiguredRun(hook.assignees, 0, cache, items),
                              hook.issue.action, CreateCalendarBody(hook.issue).value.value, cache, items, updateSucceeds)
      else calls == []
  {
    if hook.objectKind == Some("issue") && hook.assignees != [] && CreateCalendarBody(hook.issue).value.Some? {
      AssigneeLoopMakesPlannedCalls(hook.assignees, 0, hook.issue.action, CreateCalendarBody(hook.issue).value.value,
        items, updateSucceeds, Effect(cache, [], []), cache);
    }
  }

  /** Fail-fast: when the first assignee is not configured, no calendar call is
      made for anyone, however many later assignees are configured. */
  lemma UnconfiguredFirstAssigneeStopsAll(hook: Webhook, cache: map<string, UserEntry>, items: map<string, Linkage>, updateSucceeds: nat -> bool)
    requires Sync(hook, cache, items, updateSucceeds).Success?
    requires hook.assignees != [] && Resolve(cache, items, hook.assignees[0]).None?
    ensures Sync(hook, cache, items, updateSucceeds).value.calls == []
  {
    DeliveryCalls(hook, cache, items, updateSucceeds);
  }

  function CountInserts(calls: seq<CalendarCall>): nat {
    if calls == [] then 0 else CountInserts(calls[..|calls| - 1]) + (if calls[|calls| - 1].Insert? then 1 else 0)
  }

  function CountUpdates(calls: seq<CalendarCall>): nat {
    if calls == [] then 0 else CountUpdates(calls[..|calls| - 1]) + (if calls[|calls| - 1].Update? then 1 else 0)
  }

  lemma {:induction false} CountsAppend(a: seq<CalendarCall>, b: seq<CalendarCall>)
    ensures CountInserts(a + b) == CountInserts(a) + CountInserts(b)
    ensures CountUpdates(a + b) == CountUpdates(a) + CountUpdates(b)
    decreases |b|
  {
    if b == [] {
      assert a + b == a;
    } else {
      var b' := b[..|b| - 1];
      assert (a + b)[..|a + b| - 1] == a + b';
      assert (a + b)[|a + b| - 1] == b[|b| - 1];
      CountsAppend(a, b');
    }
  }

  /** The number of assignees among the first `n` whose update call fails. */
  function FailedUpdates(updateSucceeds: nat -> bool, n: nat): nat {
    if n == 0 then 0 else FailedUpdates(updateSucceeds, n - 1) + (if updateSucceeds(n - 1) then 0 else 1)
  }

  lemma CallsForCounts(action: Option<string>, user: UserEntry, event: CalendarEvent, updateOk: bool)
    ensures var calls := CallsFor(action, user, event, updateOk);
      && (action == Some("open") ==> CountInserts(calls) == 1 && CountUpdates(calls) == 0)
      && (IsUpdateAction(action) ==> CountUpdates(calls) == 1 && CountInserts(calls) == (if updateOk then 0 else 1))
  {
    var calls := CallsFor(action, user, event, updateOk);
    if action == Some("open") || (IsUpdateAction(action) && updateOk) {
      assert calls[..0] == [];
    } else if IsUpdateAction(action) {
      var first := calls[..1];
      assert first == [calls[0]];
      assert first[..0] == [];
      assert first[0].Update?;
      assert CountUpdates(first) == CountUpdates(first[..0]) + 1;
      assert CountInserts(first) == 0 && CountUpdates(first) == 1;
      assert calls[..|calls| - 1] == first;
    }
  }

  /** Per action, over the configured assignees: "open" inserts once each and
      never updates; "reopen", "update" and "close" update once each and
      insert once for each failed update; any other action calls nothing. */
  lemma PlannedCallCounts(
    names: seq<string>, n: nat, action: Option<string>, event: CalendarEvent,
    cache: map<string, UserEntry>, items: map<string, Linkage>, updateSucceeds: nat -> bool)
    requires n <= |names|
    requires forall j :: 0 <= j < n ==> Resolve(cache, items, names[j]).Some?
    ensures var calls := PlannedCalls(names, n, action, event, cache, items, updateSucceeds);
      && (action == Some("open") ==> CountInserts(calls) == n && CountUpdates(calls) == 0)
      && (IsUpdateAction(action) ==> CountUpdates(calls) == n && CountInserts(calls) == FailedUpdates(updateSucceeds, n))
      && (action != Some("open") && !IsUpdateAction(action) ==> calls == [])
  {
    if action == Some("open") {
      OpenCallCounts(names, n, event, cache, items, updateSucceeds);
    } else if IsUpdateAction(action) {
      UpdateCallCounts(names, n, action, event, cache, items, updateSucceeds);
    } else {
      OtherActionCalls(names, n, action, event, cache, items, updateSucceeds);
    }
  }

  lemma {:induction false} OpenCallCounts(
    names: seq<string>, n: nat, event: CalendarEvent,
    cache: map<string, UserEntry>, items: map<string, Linkage>, updateSucceeds: nat -> bool)
    requires n <= |names|
    requires forall j :: 0 <= j < n ==> Resolve(cache, items, names[j]).Some?
    ensures var calls := PlannedCalls(names, n, Some("open"), event, cache, items, updateSucceeds);
      CountInserts(calls) == n && CountUpdates(calls) == 0
  {
    if n > 0 {
      OpenCallCounts(names, n - 1, event, cache, items, updateSucceeds);
      PlannedCallsStep(names, n, Some("open"), event, cache, items, updateSucceeds);
    }
  }

  lemma {:induction false} UpdateCallCounts(
    names: seq<string>, n: nat, action: Option<string>, event: CalendarEvent,
    cache: map<string, UserEntry>, items: map<string, Linkage>, updateSucceeds: nat -> bool)
    requires n <= |names| && IsUpdateAction(action)
    requires forall j :: 0 <= j < n ==> Resolve(cache, items, names[j]).Some?
    ensures var calls := PlannedCalls(names, n, action, event, cache, items, updateSucceeds);
      CountUpdates(calls) == n && CountInserts(calls) == FailedUpdates(updateSucceeds, n)
  {
    if n > 0 {
      var earlier := PlannedCalls(names, n - 1, action, event, cache, items, updateSucceeds);
      UpdateCallCounts(names, n - 1, action, event, cache, items, updateSucceeds);
      assert CountUpdates(earlier) == n - 1 && CountInserts(earlier) == FailedUpdates(updateSucceeds, n - 1);
      PlannedCallsStep(names, n, action, event, cache, items, updateSucceeds);
    }
  }

  lemma {:induction false} OtherActionCalls(
    names: seq<string>, n: nat, action: Option<string>, event: CalendarEvent,
    cache: map<string, UserEntry>, items: map<string, Linkage>, updateSucceeds: nat -> bool)
    requires n <= |names| && action != Some("open") && !IsUpdateAction(action)
    requires forall j :: 0 <= j < n ==> Resolve(cache, items, names[j]).Some?
    ensures PlannedCalls(names, n, action, event, cache, items, updateSucceeds) == []
  {
    if n > 0 {
      OtherActionCalls(names, n - 1, action, event, cache, items, updateSucceeds);
      PlannedCallsStep(names, n, action, event, cache, items, updateSucceeds);
    }
  }

  lemma PlannedCallsStep(
    names: seq<string>, n: nat, action: Option<string>, event: CalendarEvent,
    cache: map<string, UserEntry>, items: map<string, Linkage>, updateSucceeds: nat -> bool)
    requires 0 < n <= |names|
    requires forall j :: 0 <= j < n ==> Resolve(cache, items, names[j]).Some?
    ensures var earlier := PlannedCalls(names, n - 1, action, event, cache, items, updateSucceeds);
      var calls := PlannedCalls(names, n, action, event, cache, items, updateSucceeds);
      && (action == Some("open") ==> CountInserts(calls) == CountInserts(earlier) + 1 && CountUpdates(calls) == CountUpdates(earlier))
      && (IsUpdateAction(action) ==>
            && CountUpdates(calls) == CountUpdates(earlier) + 1
            && CountInserts(calls) == CountInserts(earlier) + (if updateSucceeds(n - 1) then 0 else 1))
      && (action != Some("open") && !IsUpdateAction(action) ==> calls == earlier)
  {
    var user := Resolve(cache, items, names[n - 1]).value;
    var earlier := PlannedCalls(names, n - 1, action, event, cache, items, updateSucceeds);
    var own := CallsFor(action, user, event, updateSucceeds(n - 1));
    CountsAppend(earlier, own);
    CallsForCounts(action, user, event, updateSucceeds(n - 1));
    if action != Some("open") && !IsUpdateAction(action) {
      assert earlier + own == earlier;
    }
  }

  lemma OpenedIssueBody()
    ensures CreateCalendarBody(Issue(1, 5, "Fix bug", "http://x/5", Some("d"), "opened", Text("2024-01-10"), Null, Some("open")))
      == Success(Some(CalendarEvent("2024-01-10", "2024-01-10", Some("d"), 1, Source("GitLab", "http://x/5"), "#5: Fix bug", None)))
  {
    assert Decimal.NatToString(5) == "5";
    assert Summary(5, "Fix bug") == "#5: Fix bug";
  }

  /** The example delivery: an opened issue assigned to one linked user gives
      exactly one insert into that user's calendar, with the due date, the
      "#iid: title" summary and no color. */
  lemma OpenedIssueExample(creds: Credentials, updateSucceeds: nat -> bool)
    ensures
      var issue := Issue(1, 5, "Fix bug", "http://x/5", Some("d"), "opened", Text("2024-01-10"), Null, Some("open"));
      var hook := Webhook(Some("issue"), issue, ["alice"]);
      var items := map["alice" := Linkage("alice", "cal1", creds)];
      Sync(hook, map[], items, updateSucceeds) == Success(Effect(
        map["alice" := UserEntry(Linkage("alice", "cal1", creds), creds)],
        [Insert("cal1", creds, CalendarEvent("2024-01-10", "2024-01-10", Some("d"), 1, Source("GitLab", "http://x/5"), "#5: Fix bug", None))],
        ["alice"]))
  {
    var event := CalendarEvent("2024-01-10", "2024-01-10", Some("d"), 1, Source("GitLab", "http://x/5"), "#5: Fix bug", None);
    OpenedIssueBody();
    var items := map["alice" := Linkage("alice", "cal1", creds)];
    var entry := UserEntry(Linkage("alice", "cal1", creds), creds);
    assert Resolve(map[], items, "alice") == Some(entry);
    var after := Effect(map["alice" := entry], [Insert("cal1", creds, event)], ["alice"]);
    assert AssigneeLoop(["alice"], 1, Some("open"), event, items, updateSucceeds, after) == after;
    assert CacheAfter(map[], items, "alice") == map["alice" := entry];
    assert CallsFor(Some("open"), entry, event, updateSucceeds(0)) == [Insert("cal1", creds, event)];
    assert AssigneeLoop(["alice"], 0, Some("open"), event, items, updateSucceeds, Effect(map[], [], [])) == after;
  }

  // ---------------------------------------------------------------------------
  // The handler's state and `do` itself.

  /** `creds_cache` in front of the table: a read-through cache that is never
      invalidated. */
  class CredentialCache {
    var entries: map<string, UserEntry>
    const table: Table

    ghost predicate Valid()
      reads this, table
    {
      table.Valid()
    }

    constructor (table: Table)
      requires table.Valid()
      ensures Valid() && this.table == table && entries == map[]
    {
      this.table := table;
      entries := map[];
    }

    /** `get_user`: a cached username is answered from the cache without a
        store read; otherwise the store is read once, a hit is cached and a
        miss is not. */
    method GetUser(username: string) returns (user: Option<UserEntry>)
      requires Valid()
      modifies this`entries, table`lookups
      ensures Valid()
      ensures user == Resolve(old(entries), table.items, username)
      ensures entries == CacheAfter(old(entries), table.items, username)
      ensures table.lookups == old(table.lookups) + StoreReads(old(entries), username)
      ensures username in old(entries) ==> user == Some(old(entries)[username]) && entries == old(entries)
      ensures username !in old(entries) && username !in table.items ==> user.None? && entries == old(entries)
      ensures username !in old(entries) && username in table.items ==>
        user == Some(EntryOf(table.items[username])) && entries == old(entries)[username := user.value]
    {
      if username in entries {
        user := Some(entries[username]);
      } else {
        var item := table.GetItem(username);
        if item.None? {
          user := None;
        } else {
          user := Some(EntryOf(item.value));
          entries := entries[username := user.value];
        }
      }
    }
  }

  /** The Google Calendar service as the trace of calls made to it. */
  class Calendar {
    var calls: seq<CalendarCall>

    constructor ()
      ensures calls == []
    {
      calls := [];
    }

    /** `create`: `events().insert(calendarId, body)`. */
    method Insert(calendarId: string, creds: Credentials, event: CalendarEvent)
      modifies this
      ensures calls == old(calls) + [CalendarCall.Insert(calendarId, creds, event)]
    {
      calls := calls + [CalendarCall.Insert(calendarId, creds, event)];
    }

    /** `update`: `events().update(calendarId, eventId=event["id"], body)`;
        `succeeds` is the service's answer, which this model does not decide. */
    method Update(calendarId: string, creds: Credentials, event: CalendarEvent, succeeds: bool) returns (ok: bool)
      modifies this
      ensures calls == old(calls) + [CalendarCall.Update(calendarId, creds, event.id, event)]
      ensures ok == succeeds
    {
      calls := calls + [CalendarCall.Update(calendarId, creds, event.id, event)];
      ok := succeeds;
    }
  }

  /** The calls for one configured assignee: insert on "open"; update on
      "reopen", "update" or "close", then insert if the update failed. */
  method Dispatch(calendar: Calendar, action: Option<string>, user: UserEntry, event: CalendarEvent, updateOk: bool)
    modifies calendar
    ensures calendar.calls == old(calendar.calls) + CallsFor(action, user, event, updateOk)
  {
    var calendarId := user.item.calendarId;
    if action == Some(OpenAction) {
      calendar.Insert(calendarId, user.creds, event);
    } else if action == Some("reopen") || action == Some("update") || action == Some("close") {
      var ok := calendar.Update(calendarId, user.creds, event, updateOk);
      if !ok {
        calendar.Insert(calendarId, user.creds, event);
      }
    }
  }

  /** The `for a in assignees` loop of `do`, returning at the first assignee
      that is not configured. The update made for the assignee at position
      `i` succeeds when `updateSucceeds(i)`. */
  method VisitAssignees(names: seq<string>, action: Option<string>, event: CalendarEvent,
                        cache: CredentialCache, calendar: Calendar, updateSucceeds: nat -> bool)
    requires cache.Valid()
    modifies cache`entries, cache.table`lookups, calendar
    ensures cache.Valid()
    ensures var effect := AssigneeLoop(names, 0, action, event, cache.table.items, updateSucceeds, Effect(old(cache.entries), [], []));
      && cache.entries == effect.cache
      && calendar.calls == old(calendar.calls) + effect.calls
      && cache.table.lookups == old(cache.table.lookups) + effect.lookups
  {
    ghost var items := cache.table.items;
    ghost var start := Effect(cache.entries, [], []);
    ghost var st := start;
    var i := 0;
    while i < |names|
      invariant 0 <= i <= |names|
      invariant cache.Valid() && cache.table.items == items
      invariant cache.entries == st.cache
      invariant calendar.calls == old(calendar.calls) + st.calls
      invariant cache.table.lookups == old(cache.table.lookups) + st.lookups
      invariant AssigneeLoop(names, i, action, event, items, updateSucceeds, st)
             == AssigneeLoop(names, 0, action, event, items, updateSucceeds, start)
    {
      var user := VisitOne(names[i], action, event, cache, calendar, updateSucceeds(i));
      LoopStep(names, i, action, event, items, updateSucceeds, st, user);
      ghost var read := StoreReads(st.cache, names[i]);
      AppendTwice(old(cache.table.lookups), st.lookups, read);
      if user.None? {
        st := Effect(cache.entries, st.calls, st.lookups + read);
        return;
      }
      ghost var own := CallsFor(action, user.value, event, updateSucceeds(i));
      AppendTwice(old(calendar.calls), st.calls, own);
      st := Effect(cache.entries, st.calls + own, st.lookups + read);
      i := i + 1;
    }
  }

  lemma AppendTwice<T>(a: seq<T>, b: seq<T>, c: seq<T>)
    ensures (a + b) + c == a + (b + c)
  {
  }

  /** The loop body for one assignee: resolve the name and, when it is
      configured, make its calls. */
  method VisitOne(name: string, action: Option<string>, event: CalendarEvent,
                  cache: CredentialCache, calendar: Calendar, updateOk: bool)
    returns (user: Option<UserEntry>)
    requires cache.Valid()
    modifies cache`entries, cache.table`lookups, calendar
    ensures cache.Valid()
    ensures user == Resolve(old(cache.entries), cache.table.items, name)
    ensures cache.entries == CacheAfter(old(cache.entries), cache.table.items, name)
    ensures cache.table.lookups == old(cache.table.lookups) + StoreReads(old(cache.entries), name)
    ensures user.None? ==> calendar.calls == old(calendar.calls)
    ensures user.Some? ==> calendar.calls == old(calendar.calls) + CallsFor(action, user.value, event, updateOk)
  {
    user := cache.GetUser(name);
    if user.Some? {
      Dispatch(calendar, action, user.value, event, updateOk);
    }
  }

  /** One turn of the assignee loop: a missing user ends it after the store
      read, a configured one adds its calls and moves on. */
  lemma LoopStep(
    names: seq<string>, i: nat, action: Option<string>, event: CalendarEvent,
    items: map<string, Linkage>, updateSucceeds: nat -> bool, st: Effect, user: Option<UserEntry>)
    requires i < |names| && user == Resolve(st.cache, items, names[i])
    ensures var cache, lookups := CacheAfter(st.cache, items, names[i]), st.lookups + StoreReads(st.cache, names[i]);
      if user.None? then
        AssigneeLoop(names, i, action, event, items, updateSucceeds, st) == Effect(cache, st.calls, lookups)
      else
        AssigneeLoop(names, i, action, event, items, updateSucceeds, st) ==
        AssigneeLoop(names, i + 1, action, event, items, updateSucceeds,
          Effect(cache, st.calls + CallsFor(action, user.value, event, updateSucceeds(i)), lookups))
  {
  }

  /** `do`: ignore deliveries that are not issue events or have no assignees,
      map the issue (whose exception escapes), stop when there is no event,
      and otherwise walk the assignees. */
  method Do(hook: Webhook, cache: CredentialCache, calendar: Calendar, updateSucceeds: nat -> bool)
    returns (r: Result<(), MapError>)
    requires cache.Valid()
    modifies cache`entries, cache.table`lookups, calendar
    ensures cache.Valid()
    ensures var spec := Sync(hook, old(cache.entries), cache.table.items, updateSucceeds);
      match spec
      case Failure(e) =>
        r == Failure(e) && cache.entries == old(cache.entries)
        && calendar.calls == old(calendar.calls) && cache.table.lookups == old(cache.table.lookups)
      case Success(effect) =>
        r == Success(()) && cache.entries == effect.cache
        && calendar.calls == old(calendar.calls) + effect.calls
        && cache.table.lookups == old(cache.table.lookups) + effect.lookups
  {
    if hook.objectKind != Some("issue") {
      return Success(());
    }
    var action := hook.issue.action;
    var names := hook.assignees;
    if names == [] {
      return Success(());
    }
    var body := CreateCalendarBody(hook.issue);
    if body.Failure? {
      return Failure(body.error);
    }
    if body.value.None? {
      return Success(());
    }
    VisitAssignees(names, action, body.value.value, cache, calendar, updateSucceeds);
    return Success(());
  }

  /** `handler`: status 200 whenever `do` returns; the mapper's exception
      escapes and the invocation fails. */
  method Handler(hook: Webhook, cache: CredentialCache, calendar: Calendar, updateSucceeds: nat -> bool)
    returns (r: Result<int, MapError>)
    requires cache.Valid()
    modifies cache`entries, cache.table`lookups, calendar
    ensures cache.Valid()
    ensures var spec := Sync(hook, old(cache.entries), cache.table.items, updateSucceeds);
      match spec
      case Failure(e) =>
        r == Failure(e) && cache.entries == old(cache.entries)
        && calendar.calls == old(calendar.calls) && cache.table.lookups == old(cache.table.lookups)
      case Success(effect) =>
        r == Success(200) && cache.entries == effect.cache
        && calendar.calls == old(calendar.calls) + effect.calls
        && cache.table.lookups == old(cache.table.lookups) + effect.lookups
  {
    var done := Do(hook, cache, calendar, updateSucceeds);
    if done.Failure? {
      return Failure(done.error);
    }
    return Success(200);
  }
}
