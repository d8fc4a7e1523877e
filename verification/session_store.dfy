/** The session list: creating, loading, deleting and restoring sessions, saving the list
    to storage, and the step that copies the working state into the active session,
    names it after the first user message and keeps the list ordered by recency. */
module SessionStore {
  import opened Wrappers
  import opened Text
  import opened Numerals
  import opened Types
  import opened AppState

  // ---------------------------------------------------------------------------
  // Ordering by recency

  /** Most recently modified first. */
  predicate SortedByRecency(xs: seq<Session>) {
    forall i :: 0 < i < |xs| ==> xs[i - 1].lastModified >= xs[i].lastModified
  }

  /** The sessions last modified at time `t`, in list order. */
  function ModifiedAt(xs: seq<Session>, t: int): (r: seq<Session>)
    ensures |r| <= |xs|
  {
    if xs == [] then []
    else (if xs[0].lastModified == t then [xs[0]] else []) + ModifiedAt(xs[1..], t)
  }

  /** Places `s` before the first session that is not more recent than it. */
  function Insert(s: Session, sorted: seq<Session>): (r: seq<Session>)
    requires SortedByRecency(sorted)
    ensures SortedByRecency(r)
    ensures multiset(r) == multiset{s} + multiset(sorted)
    ensures |r| == |sorted| + 1
    ensures r[0] == s || (sorted != [] && r[0] == sorted[0])
  {
    if sorted == [] || s.lastModified >= sorted[0].lastModified then
      SortedCons(s, sorted);
      [s] + sorted
    else
      var head := sorted[0];
      var tail := sorted[1..];
      SortedTail(sorted);
      var rest := Insert(s, tail);
      SortedCons(head, rest);
      assert sorted == [head] + tail;
      [head] + rest
  }

  lemma SortedCons(x: Session, rest: seq<Session>)
    requires SortedByRecency(rest)
    requires rest == [] || x.lastModified >= rest[0].lastModified
    ensures SortedByRecency([x] + rest)
  {
    var r := [x] + rest;
    forall i | 0 < i < |r|
      ensures r[i - 1].lastModified >= r[i].lastModified
    {
      if i > 1 {
        assert r[i - 1] == rest[i - 2] && r[i] == rest[i - 1];
      }
    }
  }

  lemma SortedTail(xs: seq<Session>)
    requires SortedByRecency(xs) && xs != []
    ensures SortedByRecency(xs[1..])
  {
    var t := xs[1..];
    forall i | 0 < i < |t|
      ensures t[i - 1].lastModified >= t[i].lastModified
    {
      assert t[i - 1] == xs[i] && t[i] == xs[i + 1];
    }
  }

  /** `Array.prototype.sort` with the comparator `b.lastModified - a.lastModified`:
      a stable sort, most recent first. */
  function SortByRecency(xs: seq<Session>): (r: seq<Session>)
    ensures SortedByRecency(r)
    ensures multiset(r) == multiset(xs)
    ensures |r| == |xs|
  {
    if xs == [] then []
    else
      assert xs == [xs[0]] + xs[1..];
      Insert(xs[0], SortByRecency(xs[1..]))
  }

  lemma ModifiedAtCons(x: Session, rest: seq<Session>, t: int)
    ensures ModifiedAt([x] + rest, t) == (if x.lastModified == t then [x] else []) + ModifiedAt(rest, t)
  {
    assert ([x] + rest)[1..] == rest;
  }

  lemma {:induction false} InsertStable(s: Session, sorted: seq<Session>, t: int)
    requires SortedByRecency(sorted)
    ensures ModifiedAt(Insert(s, sorted), t) == (if s.lastModified == t then [s] else []) + ModifiedAt(sorted, t)
  {
    if sorted == [] || s.lastModified >= sorted[0].lastModified {
      InsertInFront(s, sorted);
      ModifiedAtCons(s, sorted, t);
    } else {
      InsertBehind(s, sorted);
      InsertStable(s, sorted[1..], t);
      StableStep(s, sorted[0], sorted[1..], Insert(s, sorted[1..]), t);
      assert sorted == [sorted[0]] + sorted[1..];
    }
  }

  /** Putting a session more recent than `s` in front of both sides keeps them related. */
  lemma StableStep(s: Session, head: Session, tail: seq<Session>, rest: seq<Session>, t: int)
    requires s.lastModified < head.lastModified
    requires ModifiedAt(rest, t) == (if s.lastModified == t then [s] else []) + ModifiedAt(tail, t)
    ensures ModifiedAt([head] + rest, t) == (if s.lastModified == t then [s] else []) + ModifiedAt([head] + tail, t)
  {
    ModifiedAtCons(head, rest, t);
    ModifiedAtCons(head, tail, t);
  }

  lemma InsertInFront(s: Session, sorted: seq<Session>)
    requires SortedByRecency(sorted)
    requires sorted == [] || s.lastModified >= sorted[0].lastModified
    ensures Insert(s, sorted) == [s] + sorted
  {
  }

  lemma InsertBehind(s: Session, sorted: seq<Session>)
    requires SortedByRecency(sorted)
    requires sorted != [] && s.lastModified < sorted[0].lastModified
    ensures SortedByRecency(sorted[1..])
    ensures Insert(s, sorted) == [sorted[0]] + Insert(s, sorted[1..])
  {
    SortedTail(sorted);
  }

  /** Sessions with equal `lastModified` keep their relative order, so together with
      sortedness the result is determined: it is the stable sort. */
  lemma {:induction false} SortIsStable(xs: seq<Session>, t: int)
    ensures ModifiedAt(SortByRecency(xs), t) == ModifiedAt(xs, t)
  {
    if xs != [] {
      SortIsStable(xs[1..], t);
      InsertStable(xs[0], SortByRecency(xs[1..]), t);
    }
  }

  /** A list already in order comes back unchanged. */
  lemma {:induction false} SortKeepsSorted(xs: seq<Session>)
    requires SortedByRecency(xs)
    ensures SortByRecency(xs) == xs
  {
    if xs != [] {
      assert SortedByRecency(xs[1..]);
      SortKeepsSorted(xs[1..]);
      assert xs == [xs[0]] + xs[1..];
    }
  }

  // ---------------------------------------------------------------------------
  // The sync step

  /** The index of the first user message. */
  function FirstUserMessage(messages: seq<Message>): (r: Option<nat>)
    ensures r.Some? ==> r.value < |messages| && messages[r.value].role == User
    ensures r.Some? ==> forall j :: 0 <= j < r.value ==> messages[j].role != User
    ensures r.None? ==> forall j :: 0 <= j < |messages| ==> messages[j].role != User
  {
    if messages == [] then None
    else if messages[0].role == User then Some(0)
    else match FirstUserMessage(messages[1..])
      case None => None
      case Some(i) => Some(i + 1)
  }

  /** The first `n` characters, or all of them when there are fewer (`slice(0, n)`). */
  function Prefix(s: string, n: nat): (r: string)
    ensures |r| == if |s| < n then |s| else n
    ensures r == s[..|r|]
  {
    if |s| <= n then s else s[..n]
  }

  const TitleLength := 20

  /** The title a session gets when synced: a session still carrying the default title
      and holding more than one message is named after the first 20 characters of its
      first user message, or keeps the default when there is none or its text is empty. */
  function AutoTitle(title: string, messages: seq<Message>): (r: string)
    ensures title != DefaultTitle || |messages| <= 1 ==> r == title
    ensures title == DefaultTitle && |messages| > 1 ==>
      match FirstUserMessage(messages)
      case None => r == DefaultTitle
      case Some(i) =>
        (messages[i].text == [] ==> r == DefaultTitle)
        && (messages[i].text != [] ==> r == Prefix(messages[i].text, TitleLength) && r != [])
    ensures |r| <= TitleLength || r == title
  {
    if title == DefaultTitle && |messages| > 1 then
      match FirstUserMessage(messages)
      case None => DefaultTitle
      case Some(i) =>
        var head := Prefix(messages[i].text, TitleLength);
        if head == [] then DefaultTitle else head
    else title
  }

  /** The active session takes the working messages, mode and persona, the sync time and
      its automatic title; any other session is left as it is. */
  function SyncOne(s: Session, st: AppState, now: int): Session
    requires st.currentId.Some?
  {
    if s.id == st.currentId.value then
      s.(messages := st.messages, mode := st.mode, persona := st.persona,
         lastModified := now, title := AutoTitle(s.title, st.messages))
    else s
  }

  function SyncAll(xs: seq<Session>, st: AppState, now: int): (r: seq<Session>)
    requires st.currentId.Some?
    ensures |r| == |xs| && forall i :: 0 <= i < |xs| ==> r[i] == SyncOne(xs[i], st, now)
  {
    if xs == [] then [] else [SyncOne(xs[0], st, now)] + SyncAll(xs[1..], st, now)
  }

  /** The sync effect at time `now`: nothing without an active id (an empty id counts as
      none); otherwise the active session is brought up to date and the list re-sorted. */
  function Sync(st: AppState, now: int): (r: AppState)
    ensures st.currentId.None? || st.currentId.value == [] ==> r == st
    ensures r == st.(sessions := r.sessions)
    ensures st.currentId.Some? && st.currentId.value != [] ==>
      SortedByRecency(r.sessions) && multiset(r.sessions) == multiset(SyncAll(st.sessions, st, now))
  {
    if st.currentId.None? || st.currentId.value == [] then st
    else st.(sessions := SortByRecency(SyncAll(st.sessions, st, now)))
  }

  /** After a sync the list holds the same sessions, except that every session with the
      active id now carries the working messages, mode and persona and the sync time;
      sessions with other ids are exactly the ones that were there. */
  lemma SyncUpdatesOnlyActive(st: AppState, now: int)
    requires st.currentId.Some? && st.currentId.value != []
    ensures forall s :: s in Sync(st, now).sessions && s.id != st.currentId.value ==> s in st.sessions
    ensures forall s :: s in st.sessions && s.id != st.currentId.value ==> s in Sync(st, now).sessions
    ensures forall s :: s in Sync(st, now).sessions && s.id == st.currentId.value ==>
      s.messages == st.messages && s.mode == st.mode && s.persona == st.persona && s.lastModified == now
  {
    var mapped := SyncAll(st.sessions, st, now);
    SameElements(Sync(st, now).sessions, mapped);
    SyncAllKeepsOthers(st.sessions, st, now);
    SyncAllUpdatesActive(st.sessions, st, now);
  }

  lemma SameElements(a: seq<Session>, b: seq<Session>)
    requires multiset(a) == multiset(b)
    ensures forall s :: s in a <==> s in b
  {
    forall s
      ensures s in a <==> s in b
    {
      assert s in a <==> s in multiset(a);
      assert s in b <==> s in multiset(b);
    }
  }

  /** Sessions with another id pass through the mapped list unchanged, in both directions. */
  lemma SyncAllKeepsOthers(xs: seq<Session>, st: AppState, now: int)
    requires st.currentId.Some?
    ensures forall s :: s in SyncAll(xs, st, now) && s.id != st.currentId.value ==> s in xs
    ensures forall s :: s in xs && s.id != st.currentId.value ==> s in SyncAll(xs, st, now)
  {
    var mapped := SyncAll(xs, st, now);
    forall s | s in mapped && s.id != st.currentId.value
      ensures s in xs
    {
      var i :| 0 <= i < |mapped| && mapped[i] == s;
      assert xs[i] == s;
    }
    forall s | s in xs && s.id != st.currentId.value
      ensures s in mapped
    {
      var i :| 0 <= i < |xs| && xs[i] == s;
      assert mapped[i] == s;
    }
  }

  lemma SyncAllUpdatesActive(xs: seq<Session>, st: AppState, now: int)
    requires st.currentId.Some?
    ensures forall s :: s in SyncAll(xs, st, now) && s.id == st.currentId.value ==>
      s.messages == st.messages && s.mode == st.mode && s.persona == st.persona && s.lastModified == now
  {
    var mapped := SyncAll(xs, st, now);
    forall s | s in mapped && s.id == st.currentId.value
      ensures s.messages == st.messages && s.mode == st.mode && s.persona == st.persona && s.lastModified == now
    {
      var i :| 0 <= i < |mapped| && mapped[i] == s;
      assert mapped[i] == SyncOne(xs[i], st, now);
    }
  }

  // ---------------------------------------------------------------------------
  // Create, delete, restore, save

  /** The session `createNewSession` builds at time `now`. */
  function NewSession(now: int): (s: Session)
    ensures s.title == DefaultTitle && s.mode == ExpertAnalysis && s.persona == DefaultPersona
    ensures |s.messages| == 1 && s.messages[0].id == "init-1" && s.messages[0].role == Model
    ensures ParseInt(s.id) == Some(now)
  {
    ParseIntReadsPrinted([], now, []);
    assert [] + IntToString(now) + [] == IntToString(now);
    Session(IntToString(now), DefaultTitle, [Message("init-1", Model, WelcomeText, None, None, now)],
            now, ExpertAnalysis, DefaultPersona)
  }

  /** `createNewSession`: the new session goes to the front of the list and is loaded. */
  function Create(st: AppState, now: int): (r: AppState)
    ensures r.sessions == [NewSession(now)] + st.sessions
    ensures r == Load(st.(sessions := r.sessions), NewSession(now))
  {
    var s := NewSession(now);
    Load(st.(sessions := [s] + st.sessions), s)
  }

  /** The sessions whose id is not `id`, in order. */
  function WithoutId(xs: seq<Session>, id: string): (r: seq<Session>)
    ensures |r| <= |xs|
    ensures forall s :: s in r <==> s in xs && s.id != id
  {
    if xs == [] then []
    else if xs[0].id == id then WithoutId(xs[1..], id)
    else [xs[0]] + WithoutId(xs[1..], id)
  }

  /** The filter commutes with concatenation: the remaining sessions keep their order and
      multiplicity. */
  lemma {:induction false} WithoutIdAppend(a: seq<Session>, b: seq<Session>, id: string)
    ensures WithoutId(a + b, id) == WithoutId(a, id) + WithoutId(b, id)
  {
    if a != [] {
      assert (a + b)[1..] == a[1..] + b;
      WithoutIdAppend(a[1..], b, id);
    } else {
      assert a + b == b;
    }
  }

  /** A single session stays exactly when its id differs. */
  lemma WithoutIdOne(s: Session, id: string)
    ensures WithoutId([s], id) == (if s.id == id then [] else [s])
  {
  }

  /** `deleteSession`: every session with the id goes, the reduced list is written to
      storage at once (even when empty), and if the active session went, the first
      remaining one is loaded or, with none left, a new one is created. */
  function Delete(st: AppState, id: string, now: int): (r: AppState)
    ensures r.stored == Saved(WithoutId(st.sessions, id))
    ensures st.currentId != Some(id) ==>
      r == st.(sessions := WithoutId(st.sessions, id), stored := r.stored)
    ensures st.currentId == Some(id) && WithoutId(st.sessions, id) != [] ==>
      r.sessions == WithoutId(st.sessions, id) && r.currentId == Some(r.sessions[0].id)
      && r.messages == r.sessions[0].messages && r.mode == r.sessions[0].mode
      && r.persona == r.sessions[0].persona && r.pending == []
    ensures st.currentId == Some(id) && WithoutId(st.sessions, id) == [] ==>
      r.sessions == [NewSession(now)] && r.currentId == Some(NewSession(now).id)
      && r.messages == NewSession(now).messages && r.mode == NewSession(now).mode
      && r.persona == NewSession(now).persona && r.pending == []
    ensures st.currentId == Some(id) ==> r.input == st.input && r.loading == st.loading
  {
    var rest := WithoutId(st.sessions, id);
    var st1 := st.(sessions := rest, stored := Saved(rest));
    if st.currentId == Some(id) then
      if |rest| > 0 then Load(st1, rest[0]) else Create(st1, now)
    else st1
  }

  /** The mount effect: with a saved non-empty list the first session is loaded; with
      nothing saved, an unreadable record or an empty list a new session is created. */
  function Startup(stored: StoreRecord, now: int): (r: AppState)
    ensures stored.Saved? && stored.sessions != [] ==>
      r.sessions == stored.sessions && r.currentId == Some(stored.sessions[0].id)
      && r.messages == stored.sessions[0].messages && r.mode == stored.sessions[0].mode
      && r.persona == stored.sessions[0].persona
    ensures !(stored.Saved? && stored.sessions != []) ==>
      r.sessions == [NewSession(now)] && r.currentId == Some(NewSession(now).id)
      && r.messages == NewSession(now).messages && r.mode == NewSession(now).mode
      && r.persona == NewSession(now).persona
    ensures r.stored == stored && !r.loading && r.input == [] && r.pending == []
  {
    var st0 := Initial(stored);
    match stored
    case Saved(list) =>
      var st1 := st0.(sessions := list);
      if |list| > 0 then Load(st1, list[0]) else Create(st1, now)
    case _ => Create(st0, now)
  }

  /** The save effect: a non-empty list is written to storage; an empty one is not. */
  function Persist(st: AppState): (r: AppState)
    ensures st.sessions != [] ==> r == st.(stored := Saved(st.sessions))
    ensures st.sessions == [] ==> r == st
  {
    if |st.sessions| > 0 then st.(stored := Saved(st.sessions)) else st
  }

  /** Saving and reopening the page brings back the same list with its first session
      loaded. */
  lemma PersistThenStartup(st: AppState, now: int)
    requires st.sessions != []
    ensures Startup(Persist(st).stored, now).sessions == st.sessions
    ensures Startup(Persist(st).stored, now).currentId == Some(st.sessions[0].id)
    ensures Startup(Persist(st).stored, now).messages == st.sessions[0].messages
  {
  }

  // ---------------------------------------------------------------------------
  // The active session is always in the list

  /** The active id names a session in the list. */
  predicate ActiveListed(st: AppState) {
    st.currentId.Some? && exists i :: 0 <= i < |st.sessions| && st.sessions[i].id == st.currentId.value
  }

  lemma StartupListsActive(stored: StoreRecord, now: int)
    ensures ActiveListed(Startup(stored, now))
  {
    var r := Startup(stored, now);
    assert r.sessions[0].id == r.currentId.value;
  }

  lemma CreateListsActive(st: AppState, now: int)
    ensures ActiveListed(Create(st, now))
  {
    assert Create(st, now).sessions[0].id == Create(st, now).currentId.value;
  }

  /** Deleting keeps an active session listed: a surviving active session stays, and
      deleting the active one loads or creates another. */
  lemma DeleteListsActive(st: AppState, id: string, now: int)
    requires ActiveListed(st)
    ensures ActiveListed(Delete(st, id, now))
  {
    var r := Delete(st, id, now);
    if st.currentId == Some(id) {
      assert r.sessions[0].id == r.currentId.value;
    } else {
      var i :| 0 <= i < |st.sessions| && st.sessions[i].id == st.currentId.value;
      assert st.sessions[i] in WithoutId(st.sessions, id);
    }
  }

  /** A sync neither adds nor removes ids, so the active session stays listed. */
  lemma SyncListsActive(st: AppState, now: int)
    requires ActiveListed(st)
    ensures ActiveListed(Sync(st, now))
  {
    if st.currentId.value != [] {
      var i :| 0 <= i < |st.sessions| && st.sessions[i].id == st.currentId.value;
      var mapped := SyncAll(st.sessions, st, now);
      var x := mapped[i];
      assert x.id == st.currentId.value;
      assert x in multiset(mapped);
      var r := Sync(st, now).sessions;
      assert x in multiset(r);
      var j :| 0 <= j < |r| && r[j] == x;
    }
  }
}
