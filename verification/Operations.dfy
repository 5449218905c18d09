/** The running operations of one session (core/dbcore/session.go:235-277, used by
    core/dbcore/query.go:101-106): executions put their cancel function in a map under
    a name the app chose, and callers that cancel race with executions that end. */
module Operations {

  // An execution, told apart by when it began.
  type Operation = nat

  datatype System = System(
    names: seq<string>,               // the name each execution began under, "" for none
    running: map<string, Operation>,  // Session.running
    live: set<Operation>,             // begun and not yet untracked
    aimed: set<Operation>,            // whose cancel function somebody has in hand
    stopped: set<Operation>           // whose cancel function was called
  )

  const INIT := System([], map[], {}, {}, {})

  datatype Step =
    | Track(name: string)             // Execute: begins, under the lock
    | Untrack(op: Operation)          // Execute: under the lock, then on to its own cancel
    | Aim(name: string)               // Cancel: under the lock, look up
    | Fire(op: Operation)             // Cancel and the end of Execute: call it
    | StopAll                         // cancelAll, all of it under the lock

  ghost predicate Enabled(s: System, step: Step) {
    match step
    case Untrack(op) => op in s.live && op < |s.names|
    case Fire(op) => op in s.aimed
    case _ => true
  }

  ghost function Apply(s: System, step: Step): System
    requires Enabled(s, step)
  {
    match step
    case Track(name) =>
      var op := |s.names|;
      s.(names := s.names + [name], live := s.live + {op},
         running := if name == "" then s.running else s.running[name := op])
    case Untrack(op) =>
      s.(running := if s.names[op] == "" then s.running else s.running - {s.names[op]},
         live := s.live - {op}, aimed := s.aimed + {op})
    case Aim(name) => if name in s.running then s.(aimed := s.aimed + {s.running[name]}) else s
    case Fire(op) => s.(stopped := s.stopped + {op})
    case StopAll => s.(stopped := s.stopped + s.running.Values, running := map[])
  }

  // The map leads to executions that have not ended, each under its own name.
  ghost predicate Inv(s: System) {
    && (forall op :: op in s.live ==> op < |s.names|)
    && (forall name :: name in s.running ==>
          && name != "" && s.running[name] in s.live && s.names[s.running[name]] == name)
  }

  lemma InvStep(s: System, step: Step)
    requires Inv(s) && Enabled(s, step)
    ensures Inv(Apply(s, step))
  {
  }

  /* ---- what can be cancelled ---- */

  ghost predicate Reachable(s: System, op: Operation)
    requires op < |s.names|
  {
    s.names[op] in s.running && s.running[s.names[op]] == op
  }

  // A named execution that goes on uncancelled.
  ghost predicate GoesOn(s: System, op: Operation) {
    op in s.live && op < |s.names| && s.names[op] != "" && op !in s.stopped
  }

  // Whatever goes on can be cancelled by its name.
  ghost predicate Covered(s: System) {
    forall op: Operation :: GoesOn(s, op) ==> Reachable(s, op)
  }

  // The step takes the map entry of another execution that goes on: one begins under
  // a name that leads to another, or ends after another took over its name.
  ghost predicate Evicts(s: System, step: Step) {
    match step
    case Track(name) => name in s.running && GoesOn(s, s.running[name])
    case Untrack(op) =>
      && op < |s.names| && s.names[op] in s.running
      && s.running[s.names[op]] != op && GoesOn(s, s.running[s.names[op]])
    case _ => false
  }

  // A step makes an execution unreachable exactly when it evicts one.
  lemma CoveredStepIff(s: System, step: Step)
    requires Inv(s) && Covered(s) && Enabled(s, step)
    ensures Covered(Apply(s, step)) <==> !Evicts(s, step)
  {
    var t := Apply(s, step);
    if Evicts(s, step) {
      var evicted := s.running[if step.Track? then step.name else s.names[step.op]];
      assert GoesOn(t, evicted) && !Reachable(t, evicted);
    } else {
      forall op: Operation | GoesOn(t, op) ensures Reachable(t, op) {
        if op < |s.names| {
          assert GoesOn(s, op);
          assert Reachable(s, op);
        }
      }
    }
  }

  // Where everything is covered, Cancel reaches the execution it is meant for, and
  // one that has ended is never found.
  lemma CancelFinds(s: System, op: Operation)
    requires Inv(s) && Covered(s) && op < |s.names|
    ensures GoesOn(s, op) ==> op in Apply(s, Aim(s.names[op])).aimed
    ensures s.names[op] in s.running ==> s.running[s.names[op]] in s.live
  {
    assert GoesOn(s, op) ==> Reachable(s, op);
  }

  // Closing a session stops every named execution that has registered.
  lemma StopAllStops(s: System)
    requires Inv(s) && Covered(s)
    ensures forall op: Operation :: !GoesOn(Apply(s, StopAll), op)
  {
    var t := Apply(s, StopAll);
    forall op: Operation ensures !GoesOn(t, op) {
      if GoesOn(s, op) {
        assert Reachable(s, op);
        assert s.running[s.names[op]] in s.running.Values;
      }
    }
  }

  /* ---- runs ---- */

  ghost predicate IsRun(run: seq<System>, steps: seq<Step>) {
    && |run| == |steps| + 1 && run[0] == INIT
    && (forall i :: 0 <= i < |steps| ==> Follows(run[i], steps[i], run[i + 1]))
  }

  ghost predicate Follows(s: System, step: Step, t: System) {
    Enabled(s, step) && t == Apply(s, step)
  }

  // The executions that have not ended have different names, as far as they have any.
  ghost predicate NamesApart(s: System) {
    forall a, b :: a in s.live && b in s.live && a < b < |s.names| && s.names[a] == s.names[b] ==> s.names[a] == ""
  }

  // The app gives each execution a name that no other one under way has.
  ghost predicate FreshName(s: System, step: Step) {
    step.Track? && step.name != "" ==> forall op :: op in s.live && op < |s.names| ==> s.names[op] != step.name
  }

  lemma NamesApartStep(s: System, step: Step)
    requires Inv(s) && Enabled(s, step) && NamesApart(s) && FreshName(s, step)
    ensures NamesApart(Apply(s, step)) && !Evicts(s, step)
  {
  }

  // However executions and cancellations interleave, the map never leads to one that
  // has ended.
  lemma {:induction false} RunInv(run: seq<System>, steps: seq<Step>, j: nat)
    requires IsRun(run, steps) && j < |run|
    ensures Inv(run[j])
  {
    hide Inv, Apply, Enabled;
    if j == 0 {
      NothingRuns();
    } else {
      RunInv(run, steps, j - 1);
      assert Follows(run[j - 1], steps[j - 1], run[j]);
      InvStep(run[j - 1], steps[j - 1]);
    }
  }

  // With fresh names everything stays covered, and so Cancel and the closing of the session
  // reach every named execution that goes on.
  lemma {:induction false} FreshNamesCover(run: seq<System>, steps: seq<Step>, j: nat)
    requires IsRun(run, steps) && j < |run|
    requires forall i :: 0 <= i < |steps| ==> FreshName(run[i], steps[i])
    ensures Covered(run[j]) && NamesApart(run[j])
    ensures forall op: Operation :: GoesOn(run[j], op) ==> op in Apply(run[j], Aim(run[j].names[op])).aimed
    ensures forall op: Operation :: !GoesOn(Apply(run[j], StopAll), op)
  {
    hide Inv, Covered, NamesApart, FreshName, Evicts, Apply;
    if j == 0 {
      NothingRuns();
    } else {
      FreshNamesCover(run, steps, j - 1);
      var s, step := run[j - 1], steps[j - 1];
      assert Follows(s, step, run[j]);
      RunInv(run, steps, j - 1);
      NamesApartStep(s, step);
      CoveredStepIff(s, step);
    }
    RunInv(run, steps, j);
    StopAllStops(run[j]);
    forall op: Operation | GoesOn(run[j], op) ensures op in Apply(run[j], Aim(run[j].names[op])).aimed {
      CancelFinds(run[j], op);
    }
  }

  lemma NothingRuns()
    ensures Inv(INIT) && Covered(INIT) && NamesApart(INIT)
  {
  }

  // Why the cancel function of op was taken in hand or called.
  ghost predicate Reason(s: System, step: Step, op: Operation) {
    match step
    case Untrack(ended) => ended == op
    case Aim(name) => name in s.running && s.running[name] == op
    case StopAll => op in s.running.Values
    case _ => false
  }

  // Nothing is stopped by mistake: its own end, a Cancel that found it under its own
  // name, or the closing of the session came first.
  lemma {:induction false} StoppedForAReason(run: seq<System>, steps: seq<Step>, j: nat, op: Operation)
    requires IsRun(run, steps) && j < |run|
    requires op in run[j].stopped || op in run[j].aimed
    ensures exists i :: 0 <= i < j && Reason(run[i], steps[i], op)
  {
    hide Reason;
    if j > 0 {
      var s, step := run[j - 1], steps[j - 1];
      assert Follows(s, step, run[j]);
      if op in s.stopped || op in s.aimed {
        StoppedForAReason(run, steps, j - 1, op);
      } else {
        NewlyStopped(s, step, op);
      }
    }
  }

  lemma NewlyStopped(s: System, step: Step, op: Operation)
    requires Enabled(s, step) && op !in s.stopped && op !in s.aimed
    requires op in Apply(s, step).stopped || op in Apply(s, step).aimed
    ensures Reason(s, step, op)
  {
  }

  // A name in use twice: the first execution to end takes the other one's entry, so
  // that closing the session lets it go on.
  lemma SharedNameEscapes(name: string)
    requires name != ""
    ensures var s := Apply(Apply(Apply(INIT, Track(name)), Track(name)), Untrack(0));
      Inv(s) && GoesOn(Apply(s, StopAll), 1)
  {
  }

  // Neither does the closing stop an execution that registers behind it.
  lemma LateExecutionGoesOn(s: System, name: string)
    requires Inv(s) && name != "" && |s.names| !in s.stopped
    ensures Inv(Apply(s, StopAll)) && GoesOn(Apply(Apply(s, StopAll), Track(name)), |s.names|)
  {
  }

  /* ---- the session ---- */

  class Session {
    var running: map<string, Operation>
    // What the cancel functions called so far have stopped.
    var stopped: set<Operation>
    ghost var sys: System

    ghost predicate Valid()
      reads this
    {
      Inv(sys) && running == sys.running && stopped == sys.stopped
    }

    constructor ()
      ensures Valid() && sys == INIT
    {
      running, stopped, sys := map[], {}, INIT;
    }

    // The start of an Execute, which puts itself in the map unless it has no name.
    method Track(name: string, op: Operation)
      requires Valid() && op == |sys.names|
      modifies this`running, this`sys
      ensures Valid() && sys == Apply(old(sys), Step.Track(name))
      ensures running == if name == "" then old(running) else old(running)[name := op]
    {
      if name != "" {
        running := running[name := op];
      }
      sys := Apply(sys, Step.Track(name));
    }

    // The end of an Execute, before it calls its own cancel function.
    method Untrack(name: string, ghost op: Operation)
      requires Valid() && op in sys.live && sys.names[op] == name
      modifies this`running, this`sys
      ensures Valid() && sys == Apply(old(sys), Step.Untrack(op))
      ensures running == old(running) - {name} && op in sys.aimed
    {
      if name != "" {
        running := running - {name};
      }
      sys := Apply(sys, Step.Untrack(op));
    }

    // The locked part of Cancel.
    method Find(name: string) returns (found: bool, op: Operation)
      requires Valid()
      modifies this`sys
      ensures Valid() && sys == Apply(old(sys), Aim(name))
      ensures found <==> name in running
      ensures found ==> op == running[name] && op in sys.live && op in sys.aimed
    {
      found := name in running;
      op := if found then running[name] else 0;
      sys := Apply(sys, Aim(name));
    }

    // The call behind it, and the last thing an Execute does; an execution that has
    // ended does not notice.
    method Call(op: Operation)
      requires Valid() && op in sys.aimed
      modifies this`stopped, this`sys
      ensures Valid() && sys == Apply(old(sys), Fire(op)) && stopped == old(stopped) + {op}
    {
      stopped := stopped + {op};
      sys := Apply(sys, Fire(op));
    }

    method CancelAll()
      requires Valid()
      modifies this
      ensures Valid() && sys == Apply(old(sys), StopAll)
      ensures running == map[] && stopped == old(stopped) + old(running).Values
    {
      var left := running.Keys;
      while left != {}
        invariant running == old(running) && sys == old(sys) && left <= running.Keys
        invariant stopped == old(stopped) + (running - left).Values
      {
        var name :| name in left;
        ValuesGrow(running, left, name);
        stopped := stopped + {running[name]};
        left := left - {name};
      }
      assert running - left == running;
      running := map[];
      sys := Apply(sys, StopAll);
    }
  }

  lemma ValuesGrow(m: map<string, Operation>, left: set<string>, name: string)
    requires name in left && left <= m.Keys
    ensures (m - (left - {name})).Values == (m - left).Values + {m[name]}
  {
    var n := m - left;
    assert m - (left - {name}) == n[name := m[name]];
    forall v ensures v in n[name := m[name]].Values <==> v in n.Values + {m[name]} {
      if v in n.Values {
        var k :| k in n && n[k] == v;
        assert n[name := m[name]][k] == v;
      }
      if v == m[name] {
        assert n[name := m[name]][name] == v;
      }
    }
  }
}
