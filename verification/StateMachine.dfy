/** `StateMachine` of `src/raft/state_machine.cpp` over its store. */
module StateMachineClass {
  import opened RaftTypes
  import opened LogSpec
  import opened Quorum
  import opened StateMachineSpec

  class StateMachine {
    var store: map<Key, Value>
    var sessions: map<ClientId, Cached>
    var lastApplied: LogIndex

    ghost function View(): Machine
      reads this
    {
      Machine(store, sessions, lastApplied)
    }

    constructor ()
      ensures View() == Empty()
    {
      store, sessions, lastApplied := map[], map[], 0;
    }

    method Apply(decode: Decoder, entry: LogEntry) returns (outcome: Outcome)
      modifies this
      ensures (View(), outcome) == StateMachineSpec.Apply(old(View()), decode, entry)
    {
      if entry.index != lastApplied + 1 {
        return Failed;
      }
      if entry.kind == NoOp {
        if entry.command != [] {
          return Failed;
        }
        lastApplied := entry.index;
        return Silent;
      }
      if entry.kind == ConfChange {
        if entry.command == [] {
          return Failed;
        }
        lastApplied := entry.index;
        return Silent;
      }
      var decoded := decode(entry.command);
      if decoded.None? {
        return Failed;
      }
      var command := decoded.value;
      if command.client in sessions && command.request <= sessions[command.client].request {
        var cached := sessions[command.client];
        lastApplied := entry.index;
        var status := if command.request == cached.request then cached.status else StaleRequest;
        return Result(entry.index, command.client, command.request, status, true);
      }
      var status := Ok;
      match command {
        case Put(_, _, key, value) =>
          store := store[key := value];
        case Delete(_, _, key) =>
          if key !in store {
            status := NotFound;
          }
          store := store - {key};
      }
      sessions := sessions[command.client := Cached(command.request, status)];
      lastApplied := entry.index;
      return Result(entry.index, command.client, command.request, status, false);
    }

    /** The loop of `applyCommitted`: false when a committed entry is absent or cannot be applied,
        where it stops. */
    method ApplyCommitted(decode: Decoder, log: seq<LogEntry>, commit: LogIndex)
      returns (ok: bool, outcomes: seq<Outcome>)
      requires |log| > 0
      modifies this
      ensures Applied(View(), outcomes) == CatchUp(old(View()), decode, log, commit) && (ok <==> lastApplied >= commit)
    {
      hide StateMachineSpec.Apply;
      outcomes := [];
      assert [] + CatchUp(View(), decode, log, commit).outcomes == CatchUp(View(), decode, log, commit).outcomes;
      while lastApplied < commit
        invariant CatchUp(old(View()), decode, log, commit) == After(outcomes, CatchUp(View(), decode, log, commit))
        decreases commit - lastApplied
      {
        var entry := EntryAt(log, lastApplied + 1);
        if entry.None? {
          return false, outcomes;
        }
        ghost var before := View();
        var outcome := Apply(decode, entry.value);
        if outcome == Failed {
          FailureKeeps(before, decode, entry.value);
          assert outcomes + [] == outcomes;
          return false, outcomes;
        }
        AppliedMoves(before, decode, entry.value);
        AfterNext(outcomes, outcome, CatchUp(View(), decode, log, commit));
        outcomes := outcomes + [outcome];
      }
      ok := true;
    }

    /** `KVStore::snapshotEntries`; `keys` is the order in which the hash map is walked. */
    method SnapshotEntries(keys: seq<Key>) returns (entries: seq<(Key, Value)>)
      requires Distinct(keys) && Elements(keys) == store.Keys
      ensures forall i, j :: 0 <= i < j < |entries| ==> entries[i].0 != entries[j].0
      ensures forall i :: 0 <= i < |entries| ==> entries[i].0 in store && store[entries[i].0] == entries[i].1
      ensures forall key :: key in store ==> (key, store[key]) in entries
    {
      entries := [];
      for i := 0 to |keys|
        invariant |entries| == i
        invariant forall j :: 0 <= j < i ==> keys[j] in store && entries[j] == (keys[j], store[keys[j]])
      {
        assert keys[i] in Elements(keys);
        entries := entries + [(keys[i], store[keys[i]])];
      }
      forall key | key in store ensures (key, store[key]) in entries {
        assert key in Elements(keys);
        var i :| 0 <= i < |keys| && keys[i] == key;
        assert entries[i] == (key, store[key]);
      }
    }

    /** The sessions, walked in the order `clients` and sorted. */
    method SnapshotSessions(clients: seq<ClientId>) returns (listed: seq<Session>)
      requires Distinct(clients) && Elements(clients) == sessions.Keys
      ensures Sorted(listed) && forall s :: s in listed <==> ListedSession(s, clients)
    {
      listed := [];
      for i := 0 to |clients|
        invariant Sorted(listed) && forall s :: s in listed <==> ListedSession(s, clients[..i])
      {
        var client := clients[i];
        assert client in Elements(clients);
        assert clients[..i + 1] == clients[..i] + [client];
        assert client !in clients[..i];
        var session := Session(client, sessions[client].request, sessions[client].status);
        InsertSorts(listed, session);
        listed := Insert(listed, session);
      }
      assert clients[..|clients|] == clients;
    }

    method Snapshot(term: Term, keys: seq<Key>, clients: seq<ClientId>) returns (image: Image)
      requires Distinct(keys) && Elements(keys) == store.Keys
      requires Distinct(clients) && Elements(clients) == sessions.Keys
      ensures Lists(image, View(), term)
    {
      var entries := SnapshotEntries(keys);
      var listed := SnapshotSessions(clients);
      forall client | client in sessions
        ensures Session(client, sessions[client].request, sessions[client].status) in listed
      {
        assert client in Elements(clients);
        assert ListedSession(Session(client, sessions[client].request, sessions[client].status), clients);
      }
      forall i | 0 <= i < |listed| ensures ListedSession(listed[i], clients) {
        assert listed[i] in listed;
      }
      image := Image(lastApplied, term, entries, listed);
    }

    ghost predicate ListedSession(s: Session, clients: seq<ClientId>)
      reads this
    {
      s.client in clients && s.client in sessions && sessions[s.client] == Cached(s.request, s.status)
    }

    method Restore(image: Image) returns (ok: bool)
      modifies this
      ensures ok <==> StateMachineSpec.Restorable(image)
      ensures View() == if ok then Restored(image) else old(View())
    {
      if (image.index == 0) != (image.term == 0) {
        return false;
      }
      var restored: map<ClientId, Cached> := map[];
      for i := 0 to |image.sessions|
        invariant restored == SessionsOf(image.sessions[..i])
        invariant forall j :: 0 <= j < i ==> image.sessions[j].client != 0 && image.sessions[j].request != 0
        invariant forall j, k :: 0 <= j < k < i ==> image.sessions[j].client != image.sessions[k].client
        invariant forall client :: client in restored <==> exists j :: 0 <= j < i && image.sessions[j].client == client
      {
        var session := image.sessions[i];
        assert image.sessions[..i + 1][..i] == image.sessions[..i];
        if session.client == 0 || session.request == 0 || session.client in restored {
          return false;
        }
        restored := restored[session.client := Cached(session.request, session.status)];
      }
      assert image.sessions[..|image.sessions|] == image.sessions;
      var replaced, replacement := ReplaceAll(image.entries);
      if !replaced {
        return false;
      }
      store, sessions, lastApplied := replacement, restored, image.index;
      return true;
    }

    /** `KVStore::replaceAll`. */
    static method ReplaceAll(entries: seq<(Key, Value)>) returns (ok: bool, replacement: map<Key, Value>)
      ensures ok <==> forall i, j :: 0 <= i < j < |entries| ==> entries[i].0 != entries[j].0
      ensures ok ==> replacement == StoreOf(entries)
    {
      replacement := map[];
      for i := 0 to |entries|
        invariant replacement == StoreOf(entries[..i])
        invariant forall j, k :: 0 <= j < k < i ==> entries[j].0 != entries[k].0
        invariant forall key :: key in replacement <==> exists j :: 0 <= j < i && entries[j].0 == key
      {
        assert entries[..i + 1][..i] == entries[..i];
        if entries[i].0 in replacement {
          return false, map[];
        }
        replacement := replacement[entries[i].0 := entries[i].1];
      }
      assert entries[..|entries|] == entries;
      ok := true;
    }
  }

  // ---------------------------------------------------------------- the loop of applyCommitted

  /** What has been applied, followed by what is still to be applied. */
  ghost function After(outcomes: seq<Outcome>, more: Applied): Applied {
    Applied(more.machine, outcomes + more.outcomes)
  }

  lemma AfterNext(outcomes: seq<Outcome>, outcome: Outcome, more: Applied)
    ensures After(outcomes, Applied(more.machine, [outcome] + more.outcomes)) == After(outcomes + [outcome], more)
  {
    assert outcomes + ([outcome] + more.outcomes) == outcomes + [outcome] + more.outcomes;
  }

  // ---------------------------------------------------------------- sorted sessions

  predicate Sorted(sessions: seq<Session>) {
    forall i, j :: 0 <= i < j < |sessions| ==> sessions[i].client < sessions[j].client
  }

  function Insert(sessions: seq<Session>, s: Session): seq<Session> {
    if sessions == [] || sessions[|sessions| - 1].client < s.client then sessions + [s]
    else Insert(sessions[..|sessions| - 1], s) + [sessions[|sessions| - 1]]
  }

  lemma {:induction false} InsertHas(sessions: seq<Session>, s: Session, x: Session)
    ensures x in Insert(sessions, s) <==> x in sessions || x == s
  {
    if sessions != [] && sessions[|sessions| - 1].client >= s.client {
      InsertHas(sessions[..|sessions| - 1], s, x);
      assert sessions == sessions[..|sessions| - 1] + [sessions[|sessions| - 1]];
    }
  }

  lemma {:induction false} InsertSorts(sessions: seq<Session>, s: Session)
    requires Sorted(sessions) && forall x :: x in sessions ==> x.client != s.client
    ensures Sorted(Insert(sessions, s)) && forall x :: x in Insert(sessions, s) <==> x in sessions || x == s
  {
    forall x ensures x in Insert(sessions, s) <==> x in sessions || x == s {
      InsertHas(sessions, s, x);
    }
    if sessions != [] && sessions[|sessions| - 1].client >= s.client {
      var front, last := sessions[..|sessions| - 1], sessions[|sessions| - 1];
      InsertSorts(front, s);
      var r := Insert(front, s);
      forall i | 0 <= i < |r| ensures r[i].client < last.client {
        assert r[i] in r;
        assert last in sessions;
      }
    }
  }
}
