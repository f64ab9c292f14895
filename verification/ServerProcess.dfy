/** The server process as objects that change in place: the executor's store and deadlines, the
    role, and the two files. Each method is proved against the functions of `Durability`. */
module ServerProcess {
  import opened Text
  import opened Protocol
  import opened Executor
  import opened Contents
  import L = Lru
  import Snapshot
  import D = Durability
  import Expiry
  import Registry

  lemma DumpAppend(es: L.Entries, e: L.Entry)
    ensures Snapshot.Dump(es + [e]) == Snapshot.Dump(es) + Snapshot.SnapshotLine(e) + "\n"
  {
    if es == [] {
      assert [e][1..] == [];
    } else {
      assert (es + [e])[1..] == es[1..] + [e];
      DumpAppend(es[1..], e);
    }
  }

  /** One `getline`. */
  lemma GetLinesStep(rest: string, seen: seq<Line>, line: Line, next: string)
    requires rest != "" && line == rest[..NewlineAt(rest)]
    requires next == if NewlineAt(rest) == |rest| then "" else rest[NewlineAt(rest) + 1..]
    ensures seen + [line] + GetLines(next) == seen + GetLines(rest)
  {
    assert rest[..|rest|] == rest;
    assert GetLines(rest) == [line] + GetLines(next);
  }

  /** A client's line that is executed: it parses, is not SYNC, and is no write on a replica. */
  predicate Admitted(role: D.Role, line: Line) {
    && Parse(line).Request? && Parse(line).cmd.kind != SYNC
    && !(IsWrite(Parse(line).cmd.kind) && role == D.REPLICA)
  }

  class Process {
    const executor: CommandExecutor
    const registry: Registry.ReplicaRegistry
    var role: D.Role
    var snapshot: Option<string>
    var aof: string

    constructor (executor: CommandExecutor, registry: Registry.ReplicaRegistry, snapshot: Option<string>, aof: string)
      ensures this.executor == executor && this.registry == registry && role == D.PRIMARY
      ensures this.snapshot == snapshot && this.aof == aof
    {
      this.executor, this.registry := executor, registry;
      this.role := D.PRIMARY;
      this.snapshot, this.aof := snapshot, aof;
    }

    ghost function State(): D.Server
      reads this, executor, executor.store, executor.store.lru, executor.expiry
    {
      D.Server(executor.Data(), role, snapshot, aof)
    }

    ghost predicate Valid()
      reads this, executor, executor.store
    {
      executor.store.Valid()
    }

    /** `SnapshotManager::save`: one SET line per entry the store visits. */
    method PrintSnapshot() returns (text: string)
      requires Valid()
      ensures text == Snapshot.Dump(executor.store.Entries())
    {
      var visited := executor.store.ForEach();
      text := "";
      for i := 0 to |visited|
        invariant text == Snapshot.Dump(visited[..i])
      {
        DumpAppend(visited[..i], visited[i]);
        assert visited[..i + 1] == visited[..i] + [visited[i]];
        text := text + Snapshot.SnapshotLine(visited[i]) + "\n";
      }
      assert visited[..|visited|] == visited;
    }

    method Save()
      requires Valid()
      modifies `snapshot, `aof
      ensures Valid() && State() == D.Save(old(State()))
    {
      var text := PrintSnapshot();
      snapshot := Some(text);
      aof := "";
    }

    method RecordWrite(line: Line)
      requires Valid()
      modifies `aof
      ensures Valid() && State() == D.RecordWrite(old(State()), line)
    {
      aof := aof + (line + "\n");
    }

    method Perform(effect: Effect)
      requires Valid()
      modifies `role, `snapshot, `aof
      ensures Valid() && State() == D.Perform(old(State()), effect)
    {
      match effect {
        case NoEffect =>
        case SaveSnapshot => Save();
        case ReplicateFrom(_, _) => role := D.REPLICA;
        case StopReplicating => role := D.PRIMARY;
      }
    }

    /** `recordAndPropagateIfWrite`. */
    method RecordAndPropagateIfWrite(cmd: Command, line: Line, reply: string)
      requires Valid()
      modifies `aof, registry`wires
      ensures Valid()
      ensures State() == if IsWrite(cmd.kind) && Succeeded(reply)
                         then D.RecordWrite(old(State()), line) else old(State())
      ensures registry.wires == if IsWrite(cmd.kind) && Succeeded(reply)
                                then Registry.Propagated(old(registry.wires), registry.replicaFds, line)
                                else old(registry.wires)
    {
      if IsWrite(cmd.kind) && Succeeded(reply) {
        RecordWrite(line);
        registry.Propagate(line);
      }
    }

    /** What the replicas are sent when a command is executed in a state. */
    ghost function Streamed(db: Db, cmd: Command, line: Line, now: Expiry.Time): Registry.Wires
      reads registry
    {
      if Logged(db, cmd, now) then Registry.Propagated(registry.wires, registry.replicaFds, line) else registry.wires
    }

    /** Execute, carry out the effect, then log the line and send it to the replicas if it was a successful
        write. Where the line came from, a client or this server's own primary, makes no difference. */
    method ExecuteAndRecord(cmd: Command, line: Line, now: Expiry.Time) returns (reply: string)
      requires Valid()
      modifies this, executor.store, executor.store.nodes, executor.expiry, registry`wires
      ensures Valid() && fresh(executor.store.nodes - old(executor.store.nodes))
      ensures registry.wires == old(Streamed(executor.Data(), cmd, line, now))
      ensures State() == D.ExecuteAndRecord(old(State()), cmd, line, now)
      ensures reply == Exec(old(executor.Data()), cmd, now).reply
    {
      var effect;
      reply, effect := executor.Execute(cmd, now);
      Perform(effect);
      RecordAndPropagateIfWrite(cmd, line, reply);
    }

    /** The body of the connection loop for one request line. */
    method HandleClient(line: Line, now: Expiry.Time) returns (reply: Option<string>)
      requires Valid()
      modifies this, executor.store, executor.store.nodes, executor.expiry, registry`wires
      ensures Valid() && fresh(executor.store.nodes - old(executor.store.nodes))
      ensures D.Handled(State(), reply) == D.HandleClient(old(State()), line, now)
      ensures registry.wires == if Admitted(old(role), line)
                                then old(Streamed(executor.Data(), Parse(line).cmd, line, now))
                                else old(registry.wires)
    {
      if line == "" {
        assert Tokenize(line) == [];
        return None;
      }
      var parsed := Parse(line);
      if parsed.ProtocolError? {
        return Some(Err(parsed.message));
      }
      var cmd := parsed.cmd;
      if cmd.kind == SYNC {
        return None;
      }
      if IsWrite(cmd.kind) && role == D.REPLICA {
        return Some(ReadOnlyError());
      }
      var text := ExecuteAndRecord(cmd, line, now);
      return Some(text);
    }

    /** One line from this server's own primary, executed even though clients' writes are rejected. */
    method ApplyFromPrimary(line: Line, now: Expiry.Time)
      requires Valid()
      modifies this, executor.store, executor.store.nodes, executor.expiry, registry`wires
      ensures Valid() && fresh(executor.store.nodes - old(executor.store.nodes))
      ensures State() == D.ApplyFromPrimary(old(State()), line, now)
      ensures registry.wires == if Parse(line).Request?
                                then old(Streamed(executor.Data(), Parse(line).cmd, line, now))
                                else old(registry.wires)
    {
      var parsed := Parse(line);
      if parsed.Request? {
        var _ := ExecuteAndRecord(parsed.cmd, line, now);
      }
    }

    method ReplayOne(line: Line, now: Expiry.Time)
      requires Valid()
      modifies executor.store, executor.store.nodes, executor.expiry
      ensures Valid() && fresh(executor.store.nodes - old(executor.store.nodes))
      ensures executor.Data() == ReplayLine(old(executor.Data()), line, now)
    {
      if line == "" {
        return;
      }
      var parsed := Parse(line);
      if parsed.Request? {
        var _, _ := executor.Execute(parsed.cmd, now);
      }
    }

    /** One more line of a replay. */
    method ReplayNext(line: Line, clock: nat -> Expiry.Time, count: nat, ghost start: Db, ghost done: seq<Line>)
      requires Valid() && count == |done| && executor.Data() == Replay(start, done, clock)
      modifies executor.store, executor.store.nodes, executor.expiry
      ensures Valid() && fresh(executor.store.nodes - old(executor.store.nodes))
      ensures executor.Data() == Replay(start, done + [line], clock)
    {
      ReplaySnoc(start, done, line, clock);
      ReplayOne(line, clock(count));
    }

    /** `replayLines` over one file, continuing a replay of `done` that began at `start`. */
    method ReplayLines(text: string, clock: nat -> Expiry.Time, count: nat, ghost start: Db, ghost done: seq<Line>)
      returns (total: nat)
      requires Valid() && count == |done| && executor.Data() == Replay(start, done, clock)
      modifies executor.store, executor.store.nodes, executor.expiry
      ensures Valid() && fresh(executor.store.nodes - old(executor.store.nodes))
      ensures executor.Data() == Replay(start, done + GetLines(text), clock)
      ensures total == |done + GetLines(text)|
    {
      var rest := text;
      total := count;
      ghost var seen := done;
      while rest != ""
        invariant Valid() && fresh(executor.store.nodes - old(executor.store.nodes))
        invariant seen + GetLines(rest) == done + GetLines(text)
        invariant total == |seen| && executor.Data() == Replay(start, seen, clock)
        decreases |rest|
      {
        var n := NewlineAt(rest);
        var line: Line := rest[..n];
        var next := if n == |rest| then "" else rest[n + 1..];
        GetLinesStep(rest, seen, line, next);
        ReplayNext(line, clock, total, start, seen);
        seen := seen + [line];
        rest := next;
        total := total + 1;
      }
      assert seen + GetLines(rest) == seen;
    }

    /** `PersistenceManager::recover`: the snapshot if there is one, then the log. */
    method Recover(clock: nat -> Expiry.Time)
      requires Valid() && executor.Data() == Snapshot.Empty(executor.store.capacity)
      modifies executor.store, executor.store.nodes, executor.expiry
      ensures Valid() && executor.Data() == D.Recovered(old(State()), clock)
    {
      ghost var start := executor.Data();
      ghost var disk := D.OnDisk(State());
      if snapshot.None? {
        assert [] + GetLines(aof) == disk;
        var _ := ReplayLines(aof, clock, 0, start, []);
      } else {
        ghost var first := [] + GetLines(snapshot.value);
        assert first + GetLines(aof) == disk;
        var count := ReplayLines(snapshot.value, clock, 0, start, []);
        var _ := ReplayLines(aof, clock, count, start, first);
      }
    }
  }
}
