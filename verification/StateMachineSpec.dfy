/** The replicated map and its table of client sessions, `src/raft/state_machine.cpp`. Commands
    are what a decoder, given as a parameter, makes of an entry's bytes. */
module StateMachineSpec {
  import opened RaftTypes
  import opened LogSpec
  import opened Quorum

  type Key = seq<Byte>
  type Value = seq<Byte>
  type ClientId = nat

  datatype KVCommand =
    | Put(client: ClientId, request: nat, key: Key, value: Value)
    | Delete(client: ClientId, request: nat, key: Key)

  /** `KVCommandCodec::decode`; None is a malformed command. */
  type Decoder = seq<Byte> -> Option<KVCommand>

  /** The decoder rejects the client and request ids that sessions reserve. */
  ghost predicate Sane(decode: Decoder) {
    forall bytes {:trigger decode(bytes)} :: decode(bytes).Some? ==>
      decode(bytes).value.client != 0 && decode(bytes).value.request != 0
  }

  datatype Status = Ok | NotFound | StaleRequest

  datatype Cached = Cached(request: nat, status: Status)

  datatype Machine = Machine(store: map<Key, Value>, sessions: map<ClientId, Cached>, lastApplied: LogIndex)

  datatype Outcome =
    | Failed
    | Silent
    | Result(index: LogIndex, client: ClientId, request: nat, status: Status, duplicate: bool)

  function Empty(): Machine {
    Machine(map[], map[], 0)
  }

  // ---------------------------------------------------------------- applying

  predicate Seen(m: Machine, c: KVCommand) {
    c.client in m.sessions && c.request <= m.sessions[c.client].request
  }

  function Perform(m: Machine, c: KVCommand): (map<Key, Value>, Status) {
    match c
    case Put(_, _, key, value) => (m.store[key := value], Ok)
    case Delete(_, _, key) => (m.store - {key}, if key in m.store then Ok else NotFound)
  }

  function ApplyCommand(m: Machine, c: KVCommand, index: LogIndex): (Machine, Outcome) {
    if Seen(m, c) then
      var cached := m.sessions[c.client];
      (m.(lastApplied := index),
       Result(index, c.client, c.request, if c.request == cached.request then cached.status else StaleRequest, true))
    else
      var (store, status) := Perform(m, c);
      (Machine(store, m.sessions[c.client := Cached(c.request, status)], index),
       Result(index, c.client, c.request, status, false))
  }

  function Apply(m: Machine, decode: Decoder, e: LogEntry): (Machine, Outcome) {
    if e.index != m.lastApplied + 1 then (m, Failed)
    else if e.kind == NoOp then if e.command != [] then (m, Failed) else (m.(lastApplied := e.index), Silent)
    else if e.kind == ConfChange then if e.command == [] then (m, Failed) else (m.(lastApplied := e.index), Silent)
    else
      match decode(e.command)
      case None => (m, Failed)
      case Some(c) => ApplyCommand(m, c, e.index)
  }

  datatype Applied = Applied(machine: Machine, outcomes: seq<Outcome>)

  /** A stretch of the committed log, in order. */
  function ApplyAll(m: Machine, decode: Decoder, entries: seq<LogEntry>): Applied {
    if entries == [] then Applied(m, [])
    else
      var before := ApplyAll(m, decode, entries[..|entries| - 1]);
      var (machine, outcome) := Apply(before.machine, decode, entries[|entries| - 1]);
      Applied(machine, before.outcomes + [outcome])
  }

  ghost predicate AllApply(m: Machine, decode: Decoder, entries: seq<LogEntry>) {
    Failed !in ApplyAll(m, decode, entries).outcomes
  }

  lemma {:induction false} ApplyAllJoin(m: Machine, decode: Decoder, a: seq<LogEntry>, b: seq<LogEntry>)
    ensures var first := ApplyAll(m, decode, a);
            var second := ApplyAll(first.machine, decode, b);
            ApplyAll(m, decode, a + b) == Applied(second.machine, first.outcomes + second.outcomes)
  {
    hide Apply;
    if b == [] {
      assert a + b == a;
    } else {
      var front := b[..|b| - 1];
      ApplyAllJoin(m, decode, a, front);
      assert (a + b)[..|a + b| - 1] == a + front;
    }
  }

  /** The loop of `applyCommitted`: committed entries in order, up to the first that is absent or
      cannot be applied. */
  function CatchUp(m: Machine, decode: Decoder, log: seq<LogEntry>, commit: LogIndex): Applied
    requires |log| > 0
    decreases commit - m.lastApplied
  {
    if m.lastApplied >= commit then Applied(m, [])
    else
      match EntryAt(log, m.lastApplied + 1)
      case None => Applied(m, [])
      case Some(entry) =>
        var (next, outcome) := Apply(m, decode, entry);
        if outcome == Failed then Applied(m, [])
        else
          var more := CatchUp(next, decode, log, commit);
          Applied(more.machine, [outcome] + more.outcomes)
  }

  /** The loop stops only with everything committed applied, or before an entry that is missing
      or fails. */
  ghost predicate Stopped(m: Machine, decode: Decoder, log: seq<LogEntry>, commit: LogIndex)
    requires |log| > 0
  {
    m.lastApplied < commit ==>
      var entry := EntryAt(log, m.lastApplied + 1);
      entry.Some? ==> Apply(m, decode, entry.value).1 == Failed
  }

  /** Over an uncompacted log, what the loop does is apply the stretch it covers. */
  lemma {:induction false} CatchUpIs(m: Machine, decode: Decoder, log: seq<LogEntry>, commit: LogIndex)
    requires Contiguous(log) && FirstIndex(log) == 0 && m.lastApplied < |log|
    ensures var r := CatchUp(m, decode, log, commit);
            && m.lastApplied <= r.machine.lastApplied < |log| && Stopped(r.machine, decode, log, commit)
            && r.machine.lastApplied <= Max(commit, m.lastApplied)
            && r == ApplyAll(m, decode, log[m.lastApplied + 1..r.machine.lastApplied + 1]) && Failed !in r.outcomes
    decreases commit - m.lastApplied
  {
    hide Apply, ApplyAll, EntryAt;
    var here := m.lastApplied;
    ApplyNothing(m, decode);
    assert log[here + 1..here + 1] == [];
    EntryIs(log, here + 1);
    if here < commit && here + 1 < |log| {
      var entry := log[here + 1];
      AppliedMoves(m, decode, entry);
      var (next, outcome) := Apply(m, decode, entry);
      if outcome != Failed {
        CatchUpIs(next, decode, log, commit);
        var top := CatchUp(next, decode, log, commit).machine.lastApplied;
        assert log[here + 1..top + 1] == [entry] + log[here + 2..top + 1];
        ApplyOne(m, decode, entry);
        ApplyAllJoin(m, decode, [entry], log[here + 2..top + 1]);
      }
    }
  }

  lemma EntryIs(log: seq<LogEntry>, index: LogIndex)
    requires Contiguous(log) && FirstIndex(log) == 0 && index > 0
    ensures EntryAt(log, index) == if index < |log| then Some(log[index]) else None
  {
  }

  lemma ApplyNothing(m: Machine, decode: Decoder)
    ensures ApplyAll(m, decode, []) == Applied(m, [])
  {
  }

  lemma AppliedMoves(m: Machine, decode: Decoder, e: LogEntry)
    ensures Apply(m, decode, e).1 != Failed ==> Apply(m, decode, e).0.lastApplied == e.index == m.lastApplied + 1
  {
  }

  lemma FailureKeeps(m: Machine, decode: Decoder, e: LogEntry)
    ensures Apply(m, decode, e).1 == Failed ==> Apply(m, decode, e).0 == m
  {
  }

  lemma ApplyOne(m: Machine, decode: Decoder, e: LogEntry)
    ensures ApplyAll(m, decode, [e]) == Applied(Apply(m, decode, e).0, [Apply(m, decode, e).1])
  {
    hide Apply;
    assert [e][..0] == [];
    assert ApplyAll(m, decode, []) == Applied(m, []);
  }

  // ---------------------------------------------------------------- exactly once

  /** The session table remembers at least this request, and if no later one, then its answer. */
  ghost predicate Remembers(m: Machine, c: KVCommand, answer: Outcome) {
    && answer.Result? && c.client in m.sessions && c.request <= m.sessions[c.client].request
    && (c.request == m.sessions[c.client].request ==> m.sessions[c.client].status == answer.status)
  }

  lemma AppliedIsRemembered(m: Machine, decode: Decoder, e: LogEntry)
    requires e.kind == Command && decode(e.command).Some? && Apply(m, decode, e).1 != Failed
    ensures Remembers(Apply(m, decode, e).0, decode(e.command).value, Apply(m, decode, e).1)
  {
  }

  lemma StaysRemembered(m: Machine, decode: Decoder, e: LogEntry, c: KVCommand, answer: Outcome)
    requires Remembers(m, c, answer)
    ensures Remembers(Apply(m, decode, e).0, c, answer)
  {
  }

  /** Whatever follows it in the log, an applied command stays remembered with its own answer. */
  lemma {:induction false} AnswerRemembered(m: Machine, decode: Decoder, entries: seq<LogEntry>, k: nat)
    requires k < |entries| && AllApply(m, decode, entries) && entries[k].kind == Command
    requires decode(entries[k].command).Some?
    ensures var all := ApplyAll(m, decode, entries);
            |all.outcomes| == |entries| && Remembers(all.machine, decode(entries[k].command).value, all.outcomes[k])
  {
    hide Apply, Remembers;
    var front, last := entries[..|entries| - 1], entries[|entries| - 1];
    var before := ApplyAll(m, decode, front);
    var all := ApplyAll(m, decode, entries);
    assert all.outcomes == before.outcomes + [Apply(before.machine, decode, last).1];
    OneOutcomeEach(m, decode, front);
    if k == |entries| - 1 {
      assert all.outcomes[k] == Apply(before.machine, decode, last).1;
      AppliedIsRemembered(before.machine, decode, last);
    } else {
      AnswerRemembered(m, decode, front, k);
      StaysRemembered(before.machine, decode, last, decode(entries[k].command).value, before.outcomes[k]);
    }
  }

  lemma {:induction false} OneOutcomeEach(m: Machine, decode: Decoder, entries: seq<LogEntry>)
    ensures |ApplyAll(m, decode, entries).outcomes| == |entries|
  {
    if entries != [] {
      OneOutcomeEach(m, decode, entries[..|entries| - 1]);
    }
  }

  /** A command that is already in the applied log, appended once more under any index and term and
      in any encoding, changes neither the map nor the sessions. A retry of the client's latest request gets the
      answer the command got where it stands in the log, any older one is told it is stale. */
  lemma ReappendingChangesNothing(m: Machine, decode: Decoder, entries: seq<LogEntry>, k: nat, again: LogEntry)
    requires k < |entries| && AllApply(m, decode, entries) && entries[k].kind == Command
    requires decode(entries[k].command).Some?
    requires again.kind == Command && decode(again.command) == decode(entries[k].command)
    requires again.index == ApplyAll(m, decode, entries).machine.lastApplied + 1
    ensures var all, c := ApplyAll(m, decode, entries), decode(again.command).value;
            var now, (then_, outcome) := all.machine, Apply(all.machine, decode, again);
            && then_ == now.(lastApplied := again.index) && outcome.Result? && outcome.duplicate
            && |all.outcomes| == |entries| && all.outcomes[k].Result? && c.client in now.sessions
            && outcome.status == if c.request == now.sessions[c.client].request then all.outcomes[k].status
                                 else StaleRequest
  {
    AnswerRemembered(m, decode, entries, k);
  }

  // ---------------------------------------------------------------- snapshots

  datatype Session = Session(client: ClientId, request: nat, status: Status)

  datatype Image = Image(index: LogIndex, term: Term, entries: seq<(Key, Value)>, sessions: seq<Session>)

  /** Every key and every client exactly once, sessions in the order of their clients. */
  ghost predicate Lists(image: Image, m: Machine, term: Term) {
    && image.index == m.lastApplied && image.term == term
    && (forall i, j :: 0 <= i < j < |image.entries| ==> image.entries[i].0 != image.entries[j].0)
    && (forall i :: 0 <= i < |image.entries| ==>
          image.entries[i].0 in m.store && m.store[image.entries[i].0] == image.entries[i].1)
    && (forall key :: key in m.store ==> (key, m.store[key]) in image.entries)
    && (forall i, j :: 0 <= i < j < |image.sessions| ==> image.sessions[i].client < image.sessions[j].client)
    && (forall i :: 0 <= i < |image.sessions| ==>
          var s := image.sessions[i];
          s.client in m.sessions && m.sessions[s.client] == Cached(s.request, s.status))
    && (forall client :: client in m.sessions ==>
          Session(client, m.sessions[client].request, m.sessions[client].status) in image.sessions)
  }

  function StoreOf(entries: seq<(Key, Value)>): map<Key, Value> {
    if entries == [] then map[]
    else StoreOf(entries[..|entries| - 1])[entries[|entries| - 1].0 := entries[|entries| - 1].1]
  }

  function SessionsOf(sessions: seq<Session>): map<ClientId, Cached> {
    if sessions == [] then map[]
    else
      var last := sessions[|sessions| - 1];
      SessionsOf(sessions[..|sessions| - 1])[last.client := Cached(last.request, last.status)]
  }

  /** What `restore` accepts: paired boundary, no repeated key, no repeated or reserved client. */
  predicate Restorable(image: Image) {
    && (image.index == 0 <==> image.term == 0)
    && (forall i, j :: 0 <= i < j < |image.entries| ==> image.entries[i].0 != image.entries[j].0)
    && (forall i :: 0 <= i < |image.sessions| ==> image.sessions[i].client != 0 && image.sessions[i].request != 0)
    && (forall i, j :: 0 <= i < j < |image.sessions| ==> image.sessions[i].client != image.sessions[j].client)
  }

  function Restored(image: Image): Machine {
    Machine(StoreOf(image.entries), SessionsOf(image.sessions), image.index)
  }

  lemma {:induction false} StoreOfHas(entries: seq<(Key, Value)>, key: Key)
    ensures key in StoreOf(entries) <==> exists i :: 0 <= i < |entries| && entries[i].0 == key
    ensures key in StoreOf(entries) ==> (key, StoreOf(entries)[key]) in entries
  {
    if entries != [] {
      var front, last := entries[..|entries| - 1], entries[|entries| - 1];
      StoreOfHas(front, key);
      assert entries == front + [last];
      if key in StoreOf(front) {
        var i :| 0 <= i < |front| && front[i].0 == key;
        assert entries[i].0 == key;
      }
    }
  }

  lemma {:induction false} SessionsOfHas(sessions: seq<Session>, client: ClientId)
    ensures client in SessionsOf(sessions) <==> exists i :: 0 <= i < |sessions| && sessions[i].client == client
    ensures client in SessionsOf(sessions) ==>
              Session(client, SessionsOf(sessions)[client].request, SessionsOf(sessions)[client].status) in sessions
  {
    if sessions != [] {
      var front, last := sessions[..|sessions| - 1], sessions[|sessions| - 1];
      SessionsOfHas(front, client);
      assert sessions == front + [last];
      if client in SessionsOf(front) {
        var i :| 0 <= i < |front| && front[i].client == client;
        assert sessions[i].client == client;
      }
    }
  }

  lemma StoreComesBack(image: Image, m: Machine, term: Term)
    requires Lists(image, m, term)
    ensures StoreOf(image.entries) == m.store
  {
    forall key ensures (key in StoreOf(image.entries) <==> key in m.store) &&
        (key in m.store ==> StoreOf(image.entries)[key] == m.store[key]) {
      StoreOfHas(image.entries, key);
    }
  }

  lemma SessionsComeBack(image: Image, m: Machine, term: Term)
    requires Lists(image, m, term)
    ensures SessionsOf(image.sessions) == m.sessions
  {
    forall client ensures (client in SessionsOf(image.sessions) <==> client in m.sessions) &&
                          (client in m.sessions ==> SessionsOf(image.sessions)[client] == m.sessions[client]) {
      SessionsOfHas(image.sessions, client);
    }
  }

  /** No session belongs to a reserved client or request. */
  ghost predicate SaneSessions(m: Machine) {
    forall client :: client in m.sessions ==> client != 0 && m.sessions[client].request != 0
  }

  /** Restoring an image of a machine gives that machine. */
  lemma RestoreInvertsSnapshot(image: Image, m: Machine, term: Term)
    requires Lists(image, m, term) && SaneSessions(m) && (m.lastApplied == 0 <==> term == 0)
    ensures Restorable(image) && Restored(image) == m
  {
    StoreComesBack(image, m, term);
    SessionsComeBack(image, m, term);
  }

  lemma {:induction false} SessionsStaySane(m: Machine, decode: Decoder, entries: seq<LogEntry>)
    requires Sane(decode) && SaneSessions(m)
    ensures SaneSessions(ApplyAll(m, decode, entries).machine)
  {
    if entries != [] {
      SessionsStaySane(m, decode, entries[..|entries| - 1]);
    }
  }

  /** Whatever image is accepted, restoring it loses nothing of it: every key and every client listed is there with
      what is listed for it, and there is no other. No restored session is of a reserved client or request. */
  lemma RestoreLosesNothing(image: Image)
    requires Restorable(image)
    ensures var m := Restored(image);
            && (forall i :: 0 <= i < |image.entries| ==>
                  image.entries[i].0 in m.store && m.store[image.entries[i].0] == image.entries[i].1)
            && (forall key :: key in m.store ==> (key, m.store[key]) in image.entries)
            && (forall i :: 0 <= i < |image.sessions| ==>
                  var s := image.sessions[i];
                  s.client in m.sessions && m.sessions[s.client] == Cached(s.request, s.status))
            && (forall client :: client in m.sessions ==>
                  Session(client, m.sessions[client].request, m.sessions[client].status) in image.sessions)
            && SaneSessions(m) && m.lastApplied == image.index && (image.index == 0 <==> image.term == 0)
  {
    var m := Restored(image);
    forall i | 0 <= i < |image.entries|
      ensures image.entries[i].0 in m.store && m.store[image.entries[i].0] == image.entries[i].1
    {
      StoreOfHas(image.entries, image.entries[i].0);
    }
    forall key | key in m.store ensures (key, m.store[key]) in image.entries {
      StoreOfHas(image.entries, key);
    }
    forall i | 0 <= i < |image.sessions|
      ensures var s := image.sessions[i];
              s.client in m.sessions && m.sessions[s.client] == Cached(s.request, s.status)
    {
      SessionsOfHas(image.sessions, image.sessions[i].client);
    }
    forall client | client in m.sessions
      ensures Session(client, m.sessions[client].request, m.sessions[client].status) in image.sessions
    {
      SessionsOfHas(image.sessions, client);
    }
  }

  // ---------------------------------------------------------------- snapshot transparency

  /** At some points of the log the machine is replaced by what an image of it restores to. */
  ghost function ApplyWithCuts(m: Machine, decode: Decoder, entries: seq<LogEntry>, images: seq<Option<Image>>): Applied
    requires |images| == |entries|
  {
    if entries == [] then Applied(m, [])
    else
      var n := |entries| - 1;
      var before := ApplyWithCuts(m, decode, entries[..n], images[..n]);
      var start := if images[n].Some? then Restored(images[n].value) else before.machine;
      var (machine, outcome) := Apply(start, decode, entries[n]);
      Applied(machine, before.outcomes + [outcome])
  }

  /** Each image is one of the machine at its point, taken with the term of the last entry. */
  ghost predicate TrueCuts(m: Machine, decode: Decoder, entries: seq<LogEntry>, images: seq<Option<Image>>)
    requires |images| == |entries|
  {
    forall k :: 0 <= k < |images| && images[k].Some? ==>
      var now := ApplyWithCuts(m, decode, entries[..k], images[..k]).machine;
      Lists(images[k].value, now, images[k].value.term) && (now.lastApplied == 0 <==> images[k].value.term == 0)
  }

  /** Any choice of snapshots and restores along the log gives the same map, the same sessions and
      the same results as applying it straight through. */
  lemma {:induction false} SnapshotsAreTransparent(m: Machine, decode: Decoder, entries: seq<LogEntry>,
                                                   images: seq<Option<Image>>)
    requires |images| == |entries| && Sane(decode) && SaneSessions(m) && TrueCuts(m, decode, entries, images)
    ensures ApplyWithCuts(m, decode, entries, images) == ApplyAll(m, decode, entries)
  {
    if entries != [] {
      var n := |entries| - 1;
      CutsBefore(m, decode, entries, images, n);
      SnapshotsAreTransparent(m, decode, entries[..n], images[..n]);
      if images[n].Some? {
        SessionsStaySane(m, decode, entries[..n]);
        RestoreInvertsSnapshot(images[n].value, ApplyAll(m, decode, entries[..n]).machine, images[n].value.term);
      }
    }
  }

  lemma CutsBefore(m: Machine, decode: Decoder, entries: seq<LogEntry>, images: seq<Option<Image>>, n: nat)
    requires |images| == |entries| && n <= |entries| && TrueCuts(m, decode, entries, images)
    ensures TrueCuts(m, decode, entries[..n], images[..n])
  {
    forall k | 0 <= k < n ensures entries[..n][..k] == entries[..k] && images[..n][..k] == images[..k] {
    }
  }
}
