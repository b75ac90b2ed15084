/** Flow control: where the right to send is, in every run. */
module StreamCredit {
  import opened Bytes
  import opened Stream
  import opened TwoEnds

  /** While the stream is up, each direction's right to send is in exactly one place. */
  predicate Conserved(s: Sys) {
    Live(s) ==> Tokens(s) == 1 && Tokens(Flip(s)) == 1
  }

  /** The step reads bytes at an end whose FDE_READ is off and does not close it. */
  ghost predicate Overdraft(s: Sys, step: Step, limit: nat)
    requires Enabled(s, step, limit)
  {
    Live(Next(s, step, limit)) && OverdrawsX(if step.atX then s else Flip(s), step.act)
  }

  ghost predicate ConservedAlong(s: Sys, steps: seq<Step>, limit: nat)
    requires Run(s, steps, limit)
    decreases |steps|
  {
    Conserved(s) && (steps == [] || ConservedAlong(Next(s, steps[0], limit), steps[1..], limit))
  }

  ghost predicate NoOverdraft(s: Sys, steps: seq<Step>, limit: nat)
    requires Run(s, steps, limit)
    decreases |steps|
  {
    steps == [] || (!Overdraft(s, steps[0], limit) && NoOverdraft(Next(s, steps[0], limit), steps[1..], limit))
  }

  lemma ConservedStep(s: Sys, step: Step, limit: nat)
    requires Inv(s, limit) && Conserved(s) && Enabled(s, step, limit)
    ensures Conserved(Next(s, step, limit)) <==> !Overdraft(s, step, limit)
  {
    HandshakeHeads(s);
    if Live(Next(s, step, limit)) {
      if step.atX {
        PhaseX(s, step.act, limit);
        CreditStep(s, step.act, limit);
      } else if s.y.half.phase.Absent? {
        Accepted(s, step.act, limit);
      } else {
        PhaseX(Flip(s), step.act, limit);
        CreditStep(Flip(s), step.act, limit);
      }
    }
  }

  lemma {:induction false} ConservedRun(s: Sys, steps: seq<Step>, limit: nat)
    requires Inv(s, limit) && Conserved(s) && Run(s, steps, limit)
    ensures ConservedAlong(s, steps, limit) <==> NoOverdraft(s, steps, limit)
    decreases |steps|
  {
    if steps == [] {
    } else {
      ConservedStep(s, steps[0], limit);
      RunInv(s, [steps[0]], limit);
      var t := Next(s, steps[0], limit);
      assert [steps[0]][1..] == [];
      assert After(s, [steps[0]], limit) == After(t, [], limit);
      if Conserved(t) {
        ConservedRun(t, steps[1..], limit);
      }
    }
  }

  /** In every run: at every moment each direction has exactly one of FDE_READ on, one WRTE under
      way, unacknowledged bytes, or one OKAY under way, if and only if no read event is delivered
      to an end that had FDE_READ off and bytes to read. */
  lemma CreditConservation(steps: seq<Step>, limit: nat)
    requires Run(START, steps, limit)
    ensures ConservedAlong(START, steps, limit) <==> NoOverdraft(START, steps, limit)
  {
    StartInv(limit);
    ConservedRun(START, steps, limit);
  }

  // The condition is needed.

  /** x: opened, reads a byte, and is hung up on before the OKAY, with so many bytes left to read that
      they fill a payload: two WRTE under way. */
  lemma OverdraftHappens(limit: nat) returns (steps: seq<Step>)
    requires limit >= 1
    ensures Run(START, steps, limit)
    ensures var s := After(START, steps, limit); Live(s) && Writes(s.xy) == 2
  {
    var full: seq<Byte> := seq(limit, _ => 7);
    var receive := Receive(Again, true);
    var read, hangUp := Step(true, Fd(Event(false, true, Again, [7], false))), Step(true, Fd(Event(false, true, Again, full, false)));
    var s1 := Next(START, Step(false, receive), limit);
    assert s1 == Sys(START.x, End(Half(Open, [], true, false, false), [], [], []), [], [OKAY]);
    var s2 := Next(s1, Step(true, receive), limit);
    assert s2 == Sys(End(Half(Open, [], true, false, false), [], [], []), s1.y, [], []);
    var s3 := Next(s2, read, limit);
    assert s3.xy == [WRTE([7])] && s3.x.half == Half(Open, [], false, false, false);
    var s4 := Next(s3, hangUp, limit);
    assert s4.xy == [WRTE([7]), WRTE(full)];
    CountOne(WRTE([7]));
    CountOne(WRTE(full));
    CountConcat([WRTE([7])], [WRTE(full)]);
    steps := [Step(false, receive), Step(true, receive), read, hangUp];
    assert steps[3..][1..] == [] && steps[2..][1..] == steps[3..] && steps[1..][1..] == steps[2..];
    assert Run(s3, steps[3..], limit) && After(s3, steps[3..], limit) == s4;
    assert Run(s2, steps[2..], limit) && After(s2, steps[2..], limit) == s4;
    assert Run(s1, steps[1..], limit) && After(s1, steps[1..], limit) == s4;
  }
}
