/** The connections that have sent SYNC, and what is written to them. */
module Registry {
  import opened Text

  /** The lines written so far to each connection, by descriptor. */
  type Wires = map<nat, seq<Line>>

  function Sent(wires: Wires, fd: nat): seq<Line> { if fd in wires then wires[fd] else [] }

  /** The line written to every listed connection in turn. */
  function Propagated(wires: Wires, fds: seq<nat>, line: Line): Wires {
    if fds == [] then wires
    else
      var n := |fds| - 1;
      var before := Propagated(wires, fds[..n], line);
      before[fds[n] := Sent(before, fds[n]) + [line]]
  }

  function Copies(line: Line, n: nat): seq<Line> { seq(n, _ => line) }

  /** A connection gets the line as often as it is registered: once for a replica, never for anyone else. */
  lemma {:induction false} PropagatedCopies(wires: Wires, fds: seq<nat>, line: Line, fd: nat)
    ensures Sent(Propagated(wires, fds, line), fd) == Sent(wires, fd) + Copies(line, multiset(fds)[fd])
  {
    if fds == [] {
      assert Sent(wires, fd) + Copies(line, 0) == Sent(wires, fd);
    } else {
      var n := |fds| - 1;
      PropagatedCopies(wires, fds[..n], line, fd);
      CountLast(fds, fd);
      var c := multiset(fds[..n])[fd];
      if fds[n] == fd { assert Copies(line, c + 1) == Copies(line, c) + [line]; }
    }
  }

  lemma CountLast(fds: seq<nat>, fd: nat)
    requires fds != []
    ensures multiset(fds)[fd] == multiset(fds[..|fds| - 1])[fd] + if fds[|fds| - 1] == fd then 1 else 0
  {
    assert fds == fds[..|fds| - 1] + [fds[|fds| - 1]];
  }

  function Without(fds: seq<nat>, fd: nat): seq<nat> {
    if fds == [] then []
    else
      var rest := Without(fds[..|fds| - 1], fd);
      if fds[|fds| - 1] == fd then rest else rest + [fds[|fds| - 1]]
  }

  /** Removing a connection takes out every registration of it and no other. */
  lemma {:induction false} WithoutCounts(fds: seq<nat>, fd: nat, other: nat)
    ensures multiset(Without(fds, fd))[other] == if other == fd then 0 else multiset(fds)[other]
  {
    if fds != [] {
      var n := |fds| - 1;
      WithoutCounts(fds[..n], fd, other);
      assert fds == fds[..n] + [fds[n]];
    }
  }

  class ReplicaRegistry {
    var replicaFds: seq<nat>
    var wires: Wires

    constructor ()
      ensures replicaFds == [] && wires == map[]
    {
      replicaFds, wires := [], map[];
    }

    method Add(fd: nat)
      modifies `replicaFds
      ensures replicaFds == old(replicaFds) + [fd]
    {
      replicaFds := replicaFds + [fd];
    }

    method Remove(fd: nat)
      modifies `replicaFds
      ensures replicaFds == Without(old(replicaFds), fd)
    {
      var kept := [];
      for i := 0 to |replicaFds|
        invariant kept == Without(replicaFds[..i], fd)
      {
        assert replicaFds[..i + 1][..i] == replicaFds[..i];
        if replicaFds[i] != fd {
          kept := kept + [replicaFds[i]];
        }
      }
      assert replicaFds[..|replicaFds|] == replicaFds;
      replicaFds := kept;
    }

    /** Whether a write succeeds is not looked at; a broken connection is removed by its own thread. */
    method Propagate(line: Line)
      modifies `wires
      ensures wires == Propagated(old(wires), replicaFds, line)
    {
      for i := 0 to |replicaFds|
        invariant wires == Propagated(old(wires), replicaFds[..i], line)
      {
        var fd := replicaFds[i];
        assert replicaFds[..i + 1][..i] == replicaFds[..i];
        wires := wires[fd := (if fd in wires then wires[fd] else []) + [line]];
      }
      assert replicaFds[..|replicaFds|] == replicaFds;
    }
  }
}
