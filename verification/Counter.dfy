/** INCR and DECR as a counter: no update is lost, in any interleaving of any clients. */
module Counter {
  import opened Text
  import opened Numbers
  import opened Protocol
  import opened Contents

  predicate IsBump(cmd: Command, k: string) {
    cmd.kind in {INCR, DECR} && |cmd.args| == 1 && cmd.args[0] == k
  }

  /** A SET or DEL of the key; every other command leaves the counter alone. */
  predicate Overwrites(cmd: Command, k: string) {
    cmd.kind in {SET, DEL} && cmd.args != [] && cmd.args[0] == k
  }

  /** Increments minus decrements of `k` in a sequence of commands. */
  function Net(cmds: seq<Command>, k: string): int {
    if cmds == [] then 0
    else
      var last := cmds[|cmds| - 1];
      Net(cmds[..|cmds| - 1], k) + (if !IsBump(last, k) then 0 else if last.kind == INCR then 1 else -1)
  }

  /** What the counter reads as: 0 when absent, and otherwise the number its text starts with. */
  function Value(m: Contents, k: string): Option<int> {
    if k in m then Stoll(m[k]) else Some(0)
  }

  predicate NoOverflow(cmds: seq<Command>, k: string, start: int) {
    forall j :: 0 <= j <= |cmds| ==> IsInt64(start + Net(cmds[..j], k))
  }

  lemma OtherCommandsLeaveIt(m: Contents, cmd: Command, k: string)
    requires !IsBump(cmd, k) && !Overwrites(cmd, k)
    ensures AgreeOn(m, MapStep(m, cmd), k)
  {
  }

  lemma BumpAddsOne(m: Contents, k: string, delta: int, v: int)
    requires Value(m, k) == Some(v) && IsInt64(v + delta)
    ensures Bump(m, k, delta) == m[k := Decimal(v + delta)]
    ensures Value(Bump(m, k, delta), k) == Some(v + delta)
  {
    StollDecimal(v + delta);
  }

  predicate Bumped(cmds: seq<Command>, k: string) { exists i :: 0 <= i < |cmds| && IsBump(cmds[i], k) }

  /** What a sequence of commands has made of the counter. */
  ghost predicate Conserved(m: Contents, cmds: seq<Command>, k: string, start: int, m': Contents) {
    var total := start + Net(cmds, k);
    && Value(m', k) == Some(total)
    && if Bumped(cmds, k)
       then k in m' && m'[k] == Decimal(total)
       else AgreeOn(m, m', k)
  }

  /** Whether the key has been bumped, one command at a time. */
  lemma BumpedStep(init: seq<Command>, last: Command, k: string)
    ensures Bumped(init + [last], k) <==> Bumped(init, k) || IsBump(last, k)
    ensures Net(init + [last], k)
            == Net(init, k) + (if !IsBump(last, k) then 0 else if last.kind == INCR then 1 else -1)
  {
    var cmds := init + [last];
    assert cmds[..|init|] == init && cmds[|init|] == last;
    assert forall i :: 0 <= i < |init| ==> cmds[i] == init[i];
  }

  lemma ConservedStep(m: Contents, init: seq<Command>, last: Command, k: string, start: int, before: Contents)
    requires Conserved(m, init, k, start, before) && !Overwrites(last, k)
    requires IsInt64(start + Net(init + [last], k))
    ensures Conserved(m, init + [last], k, start, MapStep(before, last))
  {
    BumpedStep(init, last, k);
    if IsBump(last, k) {
      BumpAddsOne(before, k, if last.kind == INCR then 1 else -1, start + Net(init, k));
    } else {
      OtherCommandsLeaveIt(before, last, k);
    }
  }

  /** Counter conservation. Starting from a counter that reads `start`, any sequence of commands that
      does not otherwise write the key and does not overflow leaves it at `start` plus increments minus
      decrements; once it has been bumped, its text is that number's decimal, and until then it is
      untouched. A sequence is any interleaving of any clients, since each bump is one locked step. */
  lemma {:induction false} CounterConservation(m: Contents, cmds: seq<Command>, k: string, start: int)
    requires Value(m, k) == Some(start)
    requires forall i :: 0 <= i < |cmds| ==> !Overwrites(cmds[i], k)
    requires NoOverflow(cmds, k, start)
    ensures Conserved(m, cmds, k, start, ExecuteAll(m, cmds))
  {
    if cmds != [] {
      var init, last := cmds[..|cmds| - 1], cmds[|cmds| - 1];
      forall j | 0 <= j <= |init| ensures IsInt64(start + Net(init[..j], k)) {
        assert init[..j] == cmds[..j];
      }
      CounterConservation(m, init, k, start);
      assert cmds == init + [last] && cmds[..|cmds|] == cmds;
      ConservedStep(m, init, last, k, start, ExecuteAll(m, init));
    }
  }
}
