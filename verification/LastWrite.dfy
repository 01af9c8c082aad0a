/** What applying commands means, said without the functions that apply them: what one entry does to the
    map and the sessions, and what the whole log says about a key. */
module LastWrite {
  import opened RaftTypes
  import opened LogSpec
  import opened StateMachineSpec

  // ---------------------------------------------------------------- one entry

  /** The command an entry carries, if it carries one that can be read. */
  function CommandOf(decode: Decoder, e: LogEntry): Option<KVCommand> {
    if e.kind == Command then decode(e.command) else None
  }

  /** The client has sent no request with this number or a later one. */
  predicate IsNew(m: Machine, c: KVCommand) {
    c.client !in m.sessions || m.sessions[c.client].request < c.request
  }

  /** An entry is refused exactly if it is out of order, or is a no-op with a payload, a configuration
      change without one, or a command that cannot be read. A refusal changes nothing. */
  lemma RefusedEntry(m: Machine, decode: Decoder, e: LogEntry)
    ensures Apply(m, decode, e).1 == Failed <==>
              || e.index != m.lastApplied + 1
              || (e.kind == NoOp && e.command != []) || (e.kind == ConfChange && e.command == [])
              || (e.kind == Command && decode(e.command).None?)
    ensures Apply(m, decode, e).1 == Failed ==> Apply(m, decode, e).0 == m
    ensures Apply(m, decode, e).1 != Failed ==> Apply(m, decode, e).0.lastApplied == e.index
    ensures e.kind != Command ==> Apply(m, decode, e).0 == m.(lastApplied := Apply(m, decode, e).0.lastApplied)
  {
  }

  /** A new command takes effect: a put gives its key its value, a delete removes its key and says whether
      it was there, every other key keeps its presence and value, and the client's session has the
      request and its answer, every other session what it had. */
  lemma NewCommand(m: Machine, decode: Decoder, e: LogEntry)
    requires Apply(m, decode, e).1 != Failed && CommandOf(decode, e).Some? && IsNew(m, CommandOf(decode, e).value)
    ensures var c, (m', outcome) := CommandOf(decode, e).value, Apply(m, decode, e);
            && outcome.Result? && outcome.index == e.index && outcome.client == c.client && outcome.request == c.request
            && !outcome.duplicate
            && (c.Put? ==> c.key in m'.store && m'.store[c.key] == c.value && outcome.status == Ok)
            && (c.Delete? ==> c.key !in m'.store && outcome.status == if c.key in m.store then Ok else NotFound)
            && (forall key :: key != c.key ==>
                  (key in m'.store <==> key in m.store) && (key in m.store ==> m'.store[key] == m.store[key]))
            && c.client in m'.sessions && m'.sessions[c.client] == Cached(c.request, outcome.status)
            && forall client :: client != c.client ==>
                 (client in m'.sessions <==> client in m.sessions) &&
                 (client in m.sessions ==> m'.sessions[client] == m.sessions[client])
  {
  }

  /** A command that is not new changes neither the map nor the sessions. */
  lemma OldCommand(m: Machine, decode: Decoder, e: LogEntry)
    requires Apply(m, decode, e).1 != Failed && CommandOf(decode, e).Some? && !IsNew(m, CommandOf(decode, e).value)
    ensures var c, (m', outcome) := CommandOf(decode, e).value, Apply(m, decode, e);
            && m' == m.(lastApplied := e.index) && outcome.Result? && outcome.duplicate
            && outcome.status == if c.request == m.sessions[c.client].request then m.sessions[c.client].status
                                 else StaleRequest
  {
  }

  // ---------------------------------------------------------------- the log

  /** An earlier command of the client has this number or a later one. */
  ghost predicate Repeats(decode: Decoder, entries: seq<LogEntry>, k: nat)
    requires k < |entries| && CommandOf(decode, entries[k]).Some?
  {
    exists j :: 0 <= j < k && Precedes(decode, entries[j], CommandOf(decode, entries[k]).value)
  }

  ghost predicate Precedes(decode: Decoder, e: LogEntry, c: KVCommand) {
    var d := CommandOf(decode, e);
    d.Some? && d.value.client == c.client && d.value.request >= c.request
  }

  /** Entry k is a command about the key, the first with its number of its client. */
  ghost predicate Effective(decode: Decoder, entries: seq<LogEntry>, k: nat, key: Key) {
    && k < |entries| && CommandOf(decode, entries[k]).Some? && CommandOf(decode, entries[k]).value.key == key
    && !Repeats(decode, entries, k)
  }

  /** The last such entry. */
  ghost predicate Decides(decode: Decoder, entries: seq<LogEntry>, k: nat, key: Key) {
    Effective(decode, entries, k, key) && forall j: nat :: k < j ==> !Effective(decode, entries, j, key)
  }

  /** The sessions are what the log says: the greatest number each client has used. */
  ghost predicate SessionsFollow(m: Machine, decode: Decoder, entries: seq<LogEntry>) {
    forall c: KVCommand {:trigger IsNew(m, c)} ::
      IsNew(m, c) <==> !(exists j :: 0 <= j < |entries| && Precedes(decode, entries[j], c))
  }

  /** The map is what the log says about the key. */
  ghost predicate KeyFollows(m: Machine, decode: Decoder, entries: seq<LogEntry>, key: Key) {
    && (key in m.store <==>
          exists k: nat :: Decides(decode, entries, k, key) && CommandOf(decode, entries[k]).value.Put?)
    && forall k: nat :: Decides(decode, entries, k, key) && CommandOf(decode, entries[k]).value.Put? ==>
         key in m.store && m.store[key] == CommandOf(decode, entries[k]).value.value
  }

  lemma RepeatsBefore(decode: Decoder, front: seq<LogEntry>, e: LogEntry, k: nat)
    requires k < |front| && CommandOf(decode, front[k]).Some?
    ensures Repeats(decode, front + [e], k) <==> Repeats(decode, front, k)
  {
    var all := front + [e];
    if j :| 0 <= j < k && Precedes(decode, all[j], CommandOf(decode, all[k]).value) {
      assert Precedes(decode, front[j], CommandOf(decode, front[k]).value);
    }
    if j :| 0 <= j < k && Precedes(decode, front[j], CommandOf(decode, front[k]).value) {
      assert Precedes(decode, all[j], CommandOf(decode, all[k]).value);
    }
  }

  lemma RepeatsLast(decode: Decoder, front: seq<LogEntry>, e: LogEntry)
    requires CommandOf(decode, e).Some?
    ensures var all := front + [e];
            CommandOf(decode, all[|front|]) == CommandOf(decode, e) &&
            (Repeats(decode, all, |front|) <==>
               exists j :: 0 <= j < |front| && Precedes(decode, front[j], CommandOf(decode, e).value))
  {
    var all := front + [e];
    if j :| 0 <= j < |front| && Precedes(decode, all[j], CommandOf(decode, all[|front|]).value) {
      assert Precedes(decode, front[j], CommandOf(decode, e).value);
    }
    if j :| 0 <= j < |front| && Precedes(decode, front[j], CommandOf(decode, e).value) {
      assert Precedes(decode, all[j], CommandOf(decode, all[|front|]).value);
    }
  }

  /** One more entry makes no difference to which of the earlier ones are effective. */
  lemma EffectiveBefore(decode: Decoder, front: seq<LogEntry>, e: LogEntry, k: nat, key: Key)
    ensures k < |front| ==> (Effective(decode, front + [e], k, key) <==> Effective(decode, front, k, key))
    ensures k > |front| ==> !Effective(decode, front + [e], k, key)
  {
    hide Repeats;
    if k < |front| && CommandOf(decode, front[k]).Some? {
      RepeatsBefore(decode, front, e, k);
    }
  }

  /** The last entry decides if it is effective, otherwise whoever decided before. */
  lemma DecidesMore(decode: Decoder, front: seq<LogEntry>, e: LogEntry, k: nat, key: Key)
    ensures Effective(decode, front + [e], |front|, key) ==> (Decides(decode, front + [e], k, key) <==> k == |front|)
    ensures !Effective(decode, front + [e], |front|, key) ==>
              (Decides(decode, front + [e], k, key) <==> Decides(decode, front, k, key))
  {
    hide Effective;
    var all := front + [e];
    forall j: nat ensures j < |front| ==> (Effective(decode, all, j, key) <==> Effective(decode, front, j, key)) {
      EffectiveBefore(decode, front, e, j, key);
    }
    forall j: nat ensures j > |front| ==> !Effective(decode, all, j, key) {
      EffectiveBefore(decode, front, e, j, key);
    }
    forall j: nat ensures Effective(decode, front, j, key) ==> j < |front| {
      EffectiveInside(decode, front, j, key);
    }
  }

  lemma EffectiveInside(decode: Decoder, entries: seq<LogEntry>, k: nat, key: Key)
    ensures Effective(decode, entries, k, key) ==> k < |entries| && CommandOf(decode, entries[k]).Some?
  {
  }

  /** The last entry is effective for a key exactly if it is a new command about it. */
  lemma LastEffective(m: Machine, decode: Decoder, front: seq<LogEntry>, e: LogEntry, key: Key)
    requires SessionsFollow(m, decode, front)
    ensures var c := CommandOf(decode, e);
            Effective(decode, front + [e], |front|, key) <==> c.Some? && c.value.key == key && IsNew(m, c.value)
  {
    hide Repeats, IsNew, Precedes;
    var all := front + [e];
    assert all[|front|] == e;
    if CommandOf(decode, e).Some? {
      RepeatsLast(decode, front, e);
      assert IsNew(m, CommandOf(decode, e).value) <==>
             !(exists j :: 0 <= j < |front| && Precedes(decode, front[j], CommandOf(decode, e).value));
    }
  }

  lemma SessionsMore(m: Machine, decode: Decoder, front: seq<LogEntry>, e: LogEntry)
    requires SessionsFollow(m, decode, front) && Apply(m, decode, e).1 != Failed
    ensures SessionsFollow(Apply(m, decode, e).0, decode, front + [e])
  {
    hide Apply;
    var m', all := Apply(m, decode, e).0, front + [e];
    RefusedEntry(m, decode, e);
    if CommandOf(decode, e).Some? {
      if IsNew(m, CommandOf(decode, e).value) {
        NewCommand(m, decode, e);
      } else {
        OldCommand(m, decode, e);
      }
    }
    forall c: KVCommand ensures IsNew(m', c) <==> !(exists j :: 0 <= j < |all| && Precedes(decode, all[j], c)) {
      PrecedesMore(decode, front, e, c);
      assert IsNew(m, c) <==> !(exists j :: 0 <= j < |front| && Precedes(decode, front[j], c));
    }
  }

  lemma PrecedesMore(decode: Decoder, front: seq<LogEntry>, e: LogEntry, c: KVCommand)
    ensures (exists j :: 0 <= j < |front + [e]| && Precedes(decode, (front + [e])[j], c)) <==>
            (exists j :: 0 <= j < |front| && Precedes(decode, front[j], c)) || Precedes(decode, e, c)
  {
    hide Precedes;
    var all := front + [e];
    if j :| 0 <= j < |all| && Precedes(decode, all[j], c) {
      if j < |front| {
        assert Precedes(decode, front[j], c);
      }
    }
    if j :| 0 <= j < |front| && Precedes(decode, front[j], c) {
      assert Precedes(decode, all[j], c);
    }
    assert all[|front|] == e;
  }

  lemma KeyMore(m: Machine, decode: Decoder, front: seq<LogEntry>, e: LogEntry, key: Key)
    requires SessionsFollow(m, decode, front) && KeyFollows(m, decode, front, key) && Apply(m, decode, e).1 != Failed
    ensures KeyFollows(Apply(m, decode, e).0, decode, front + [e], key)
  {
    hide Apply, SessionsFollow, Effective, IsNew;
    var all, c := front + [e], CommandOf(decode, e);
    LastEffective(m, decode, front, e, key);
    forall k: nat
      ensures Effective(decode, all, |front|, key) ==> (Decides(decode, all, k, key) <==> k == |front|)
      ensures !Effective(decode, all, |front|, key) ==>
                (Decides(decode, all, k, key) <==> Decides(decode, front, k, key))
    {
      DecidesMore(decode, front, e, k, key);
    }
    assert all[|front|] == e;
    RefusedEntry(m, decode, e);
    if c.Some? {
      if IsNew(m, c.value) {
        NewCommand(m, decode, e);
      } else {
        OldCommand(m, decode, e);
      }
    }
    KeyKept(m, Apply(m, decode, e).0, decode, front, e, key);
  }

  /** The last step of the argument: the new map against who decides now. */
  lemma KeyKept(m: Machine, m': Machine, decode: Decoder, front: seq<LogEntry>, e: LogEntry, key: Key)
    requires KeyFollows(m, decode, front, key)
    requires forall k: nat :: if Effective(decode, front + [e], |front|, key)
               then Decides(decode, front + [e], k, key) <==> k == |front|
               else Decides(decode, front + [e], k, key) <==> Decides(decode, front, k, key)
    requires if Effective(decode, front + [e], |front|, key)
             then CommandOf(decode, e).Some? && var c := CommandOf(decode, e).value;
                  if c.Put? then key in m'.store && m'.store[key] == c.value else key !in m'.store
             else (key in m'.store <==> key in m.store) && (key in m.store ==> m'.store[key] == m.store[key])
    ensures KeyFollows(m', decode, front + [e], key)
  {
    hide Effective;
    var all := front + [e];
    assert all[|front|] == e;
    if Effective(decode, all, |front|, key) {
      assert Decides(decode, all, |front|, key);
    } else {
      forall k: nat | Decides(decode, front, k, key)
        ensures k < |front| && all[k] == front[k] && CommandOf(decode, front[k]).Some?
      {
        EffectiveInside(decode, front, k, key);
      }
      if key in m.store {
        var k: nat :| Decides(decode, front, k, key) && CommandOf(decode, front[k]).value.Put?;
        assert Decides(decode, all, k, key);
      }
    }
  }

  lemma {:induction false} LogSays(decode: Decoder, entries: seq<LogEntry>, key: Key)
    requires AllApply(Empty(), decode, entries)
    ensures var m := ApplyAll(Empty(), decode, entries).machine;
            SessionsFollow(m, decode, entries) && KeyFollows(m, decode, entries, key)
  {
    hide Apply, SessionsFollow, KeyFollows, AllApply;
    if entries == [] {
      NothingSaid(decode, key);
    } else {
      var front, e := entries[..|entries| - 1], entries[|entries| - 1];
      AppliesFront(decode, entries);
      LogSays(decode, front, key);
      var m := ApplyAll(Empty(), decode, front).machine;
      assert front + [e] == entries;
      SessionsMore(m, decode, front, e);
      KeyMore(m, decode, front, e, key);
    }
  }

  lemma NothingSaid(decode: Decoder, key: Key)
    ensures ApplyAll(Empty(), decode, []).machine == Empty()
    ensures SessionsFollow(Empty(), decode, []) && KeyFollows(Empty(), decode, [], key)
  {
  }

  lemma AppliesFront(decode: Decoder, entries: seq<LogEntry>)
    requires entries != [] && AllApply(Empty(), decode, entries)
    ensures var front := entries[..|entries| - 1];
            && AllApply(Empty(), decode, front)
            && Apply(ApplyAll(Empty(), decode, front).machine, decode, entries[|entries| - 1]).1 != Failed
            && ApplyAll(Empty(), decode, entries).machine ==
                 Apply(ApplyAll(Empty(), decode, front).machine, decode, entries[|entries| - 1]).0
  {
    hide Apply;
    var before := ApplyAll(Empty(), decode, entries[..|entries| - 1]);
    var outcome := Apply(before.machine, decode, entries[|entries| - 1]).1;
    assert (before.outcomes + [outcome])[|before.outcomes|] == outcome;
  }

  /** After the log is applied a key is there exactly if the last command about it, repeated requests not
      counted, is a put, and then with that put's value. */
  lemma StoreIsLastWrite(decode: Decoder, entries: seq<LogEntry>, key: Key)
    requires AllApply(Empty(), decode, entries)
    ensures var store := ApplyAll(Empty(), decode, entries).machine.store;
            && (key in store <==>
                  exists k: nat :: Decides(decode, entries, k, key) && CommandOf(decode, entries[k]).value.Put?)
            && forall k: nat :: Decides(decode, entries, k, key) && CommandOf(decode, entries[k]).value.Put? ==>
                 key in store && store[key] == CommandOf(decode, entries[k]).value.value
  {
    LogSays(decode, entries, key);
  }
}
