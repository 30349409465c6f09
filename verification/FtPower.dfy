/** Suspend and resume of the FT5x06 touch screen: two counted regulators, a
    counted interrupt disable, and rollback when a step fails. */
module FtPower {
  const EIO := -5

  /** `vdd` and `vcc` are enable counts, `irqDepth` the nesting of disable_irq. */
  datatype Power = Power(vdd: nat, vcc: nat, irqDepth: int, suspended: bool, loading: bool)

  /** Which regulator calls the environment makes fail: the first, the second,
      and the one that undoes the first. */
  datatype Faults = Faults(first: bool, second: bool, undo: bool)

  datatype Event = Suspend(f: Faults) | Resume(f: Faults) | Loading(on: bool)

  /** regulator_disable of a regulator that is not enabled is refused. */
  predicate Refused(fault: bool, count: nat) { fault || count == 0 }

  /** The touch screen as the probe leaves it. */
  const Probed := Power(1, 1, 0, false, false)

  class Screen {
    var vdd: nat
    var vcc: nat
    var irqDepth: int
    var suspended: bool
    var loading: bool

    ghost function State(): Power
      reads this
    {
      Power(vdd, vcc, irqDepth, suspended, loading)
    }

    constructor ()
      ensures State() == Probed
    {
      vdd, vcc, irqDepth, suspended, loading := 1, 1, 0, false, false;
    }

    /** ft5x06_power_on. */
    method PowerOn(on: bool, f: Faults) returns (rc: int)
      modifies this`vdd, this`vcc
      ensures on ==>
                && (rc == 0 <==> !f.first && !f.second)
                && vcc == (if rc == 0 then old(vcc) + 1 else old(vcc))
                && vdd == (if rc == 0 || (!f.first && f.undo) then old(vdd) + 1 else old(vdd))
      ensures !on ==>
                && (rc == 0 <==> !Refused(f.first, old(vdd)) && !Refused(f.second, old(vcc)))
                && vcc == (if rc == 0 then old(vcc) - 1 else old(vcc))
                && vdd == (if rc == 0 || (!Refused(f.first, old(vdd)) && f.undo) then old(vdd) - 1 else old(vdd))
    {
      if on {
        if f.first { return EIO; }
        vdd := vdd + 1;
        if f.second {
          if !Refused(f.undo, vdd) { vdd := vdd - 1; }
          return EIO;
        }
        vcc := vcc + 1;
        return 0;
      }
      if Refused(f.first, vdd) { return EIO; }
      vdd := vdd - 1;
      if Refused(f.second, vcc) {
        if !f.undo { vdd := vdd + 1; }
        return EIO;
      }
      vcc := vcc - 1;
      return 0;
    }

    /** ft5x06_ts_suspend. */
    method TsSuspend(f: Faults) returns (rc: int)
      modifies this
      ensures State() == Step(old(State()), Suspend(f))
      ensures rc == 0 <==> old(loading) || suspended
    {
      if loading { return 0; }
      if suspended { return 0; }
      irqDepth := irqDepth + 1;
      rc := PowerOn(false, f);
      if rc != 0 {
        irqDepth := irqDepth - 1;
        return;
      }
      suspended := true;
    }

    /** ft5x06_ts_resume. */
    method TsResume(f: Faults) returns (rc: int)
      modifies this
      ensures State() == Step(old(State()), Resume(f))
      ensures rc == 0 <==> !suspended
    {
      if !suspended { return 0; }
      rc := PowerOn(true, f);
      if rc != 0 { return; }
      irqDepth := irqDepth - 1;
      suspended := false;
    }

    /** Any sequence of calls, with any faults. */
    method RunAll(events: seq<Event>)
      modifies this
      ensures State() == Run(old(State()), events)
    {
      var i := 0;
      while i < |events|
        invariant 0 <= i <= |events| && State() == Run(old(State()), events[..i])
      {
        assert events[..i + 1][..i] == events[..i];
        match events[i] {
          case Suspend(f) => var _ := TsSuspend(f);
          case Resume(f) => var _ := TsResume(f);
          case Loading(on) => loading := on;
        }
        i := i + 1;
      }
      assert events[..i] == events;
    }
  }

  /** One call, as a change of the counts. */
  function Step(p: Power, e: Event): Power {
    match e
    case Loading(on) => p.(loading := on)
    case Suspend(f) =>
      if p.loading || p.suspended || Refused(f.first, p.vdd) then p
      else if !Refused(f.second, p.vcc) then
        p.(vdd := p.vdd - 1, vcc := p.vcc - 1, irqDepth := p.irqDepth + 1, suspended := true)
      else if f.undo then p.(vdd := p.vdd - 1)
      else p
    case Resume(f) =>
      if !p.suspended || f.first then p
      else if !f.second then p.(vdd := p.vdd + 1, vcc := p.vcc + 1, irqDepth := p.irqDepth - 1, suspended := false)
      else if f.undo then p.(vdd := p.vdd + 1)
      else p
  }

  function Run(p: Power, events: seq<Event>): Power {
    if events == [] then p else Step(Run(p, events[..|events| - 1]), events[|events| - 1])
  }

  /** What is on while the screen is awake (1) or suspended (0). */
  function Awake(p: Power): nat { if p.suspended then 0 else 1 }

  /** A failed rollback in a resume leaves one enable too many, one in a suspend one too few. */
  function Leak(p: Power, e: Event): int {
    match e
    case Loading(_) => 0
    case Suspend(f) => if !p.loading && !p.suspended && !f.first && f.second && f.undo && p.vdd > 0 then -1 else 0
    case Resume(f) => if p.suspended && !f.first && f.second && f.undo then 1 else 0
  }

  function Leaked(p: Power, events: seq<Event>): int {
    if events == [] then 0
    else
      var before := events[..|events| - 1];
      Leaked(p, before) + Leak(Run(p, before), events[|events| - 1])
  }

  /** Every run: the interface supply and the interrupt match the suspended flag,
      and the main supply is off by exactly the failed rollbacks. */
  lemma {:induction false} Conserved(events: seq<Event>)
    ensures var p := Run(Probed, events);
            p.vcc == Awake(p) && p.irqDepth == 1 - Awake(p) && p.vdd == Awake(p) + Leaked(Probed, events)
  {
    if events != [] { Conserved(events[..|events| - 1]); }
  }

  predicate RollbackFails(e: Event) { !e.Loading? && !e.f.first && e.f.second && e.f.undo }

  /** The call gets as far as the regulators. */
  predicate Acts(p: Power, e: Event) {
    if e.Suspend? then !p.loading && !p.suspended else e.Resume? && p.suspended
  }

  /** Both supplies are on, and the interrupt enabled, exactly while awake. */
  predicate InBalance(p: Power) { p.vdd == p.vcc == Awake(p) && p.irqDepth == 1 - Awake(p) }

  /** A run is in balance after every call if and only if no call that gets as far
      as the regulators fails to roll back. */
  lemma Balanced(events: seq<Event>)
    ensures (forall n | 0 <= n <= |events| :: InBalance(Run(Probed, events[..n]))) <==>
            (forall i | 0 <= i < |events| :: !(Acts(Run(Probed, events[..i]), events[i]) && RollbackFails(events[i])))
  {
    hide Run, Step;
    if forall i | 0 <= i < |events| :: !(Acts(Run(Probed, events[..i]), events[i]) && RollbackFails(events[i])) {
      forall n | 0 <= n <= |events| ensures InBalance(Run(Probed, events[..n])) {
        StaysInBalance(events, n);
      }
    } else {
      var i :| 0 <= i < |events| && Acts(Run(Probed, events[..i]), events[i]) && RollbackFails(events[i]);
      OneCall(events, i);
    }
  }

  /** From balance, a call leaves balance exactly when its rollback fails. */
  lemma OneCall(events: seq<Event>, i: nat)
    requires i < |events|
    ensures var p, e := Run(Probed, events[..i]), events[i];
            InBalance(p) ==> (InBalance(Run(Probed, events[..i + 1])) <==> !(Acts(p, e) && RollbackFails(e)))
  {
    assert events[..i + 1][..i] == events[..i];
  }

  lemma {:induction false} StaysInBalance(events: seq<Event>, n: nat)
    requires n <= |events|
    requires forall i | 0 <= i < n :: !(Acts(Run(Probed, events[..i]), events[i]) && RollbackFails(events[i]))
    ensures InBalance(Run(Probed, events[..n]))
  {
    hide Step;
    if n > 0 {
      StaysInBalance(events, n - 1);
      OneCall(events, n - 1);
    }
  }

  /** The balance is lost by one failed rollback, and can be regained by a second one. */
  lemma LeakAndRegain()
    ensures var broken := [Suspend(Faults(false, false, false)), Resume(Faults(false, true, true))];
            var regained := broken + [Resume(Faults(false, false, false)), Suspend(Faults(false, true, true))];
            && Run(Probed, broken) == Power(1, 0, 1, true, false)
            && Run(Probed, regained) == Probed
  {
    var a, b := Suspend(Faults(false, false, false)), Resume(Faults(false, true, true));
    var c, d := Resume(Faults(false, false, false)), Suspend(Faults(false, true, true));
    assert [a, b] + [c, d] == [a, b, c, d];
    assert [a][..0] == [] && [a, b][..1] == [a] && [a, b, c][..2] == [a, b] && [a, b, c, d][..3] == [a, b, c];
    assert Run(Probed, []) == Probed;
    assert Run(Probed, [a]) == Power(0, 0, 1, true, false);
    assert Run(Probed, [a, b]) == Power(1, 0, 1, true, false);
    assert Run(Probed, [a, b, c]) == Power(2, 1, 0, false, false);
  }
}
