/** CoreClient and its isolate (app/lib/core/native_core.dart:90-235) as a
    request/response protocol: callers, two message queues, and an isolate that may
    die at any time. */
module CoreClient {

  type Request = string

  // What an isolate sends back for a request: it names the request by id, and
  // carries whatever the core answered to the body.
  datatype Response = Response(id: nat, body: Request, answer: string)

  // How a request ends for its caller.
  datatype Outcome = Answered(response: Response) | Failed(message: string)

  datatype Completion = Completion(id: nat, outcome: Outcome)

  datatype Command = Ask(id: nat, body: Request) | Shutdown

  const STOPPED := "the database core stopped"
  const DISPOSED := "the database core is shut down"

  /* ---- the client's own state ---- */

  // The pending requests in the order they were made, which is the order a Dart
  // map keeps them in, and every completion so far.
  datatype ClientState = ClientState(nextId: nat, closed: bool, pending: seq<nat>, log: seq<Completion>)

  function Without(pending: seq<nat>, id: nat): seq<nat> {
    if pending == [] then []
    else if pending[0] == id then Without(pending[1..], id)
    else [pending[0]] + Without(pending[1..], id)
  }

  function FailureLog(pending: seq<nat>, message: string): (log: seq<Completion>)
    ensures |log| == |pending|
    ensures forall k :: 0 <= k < |log| ==> log[k] == Completion(pending[k], Failed(message))
  {
    seq(|pending|, k requires 0 <= k < |pending| => Completion(pending[k], Failed(message)))
  }

  function AfterCall(c: ClientState): ClientState
    requires !c.closed
  {
    c.(nextId := c.nextId + 1, pending := c.pending + [c.nextId])
  }

  function AfterResponse(c: ClientState, r: Response): ClientState {
    if r.id !in c.pending then c
    else c.(pending := Without(c.pending, r.id), log := c.log + [Completion(r.id, Answered(r))])
  }

  function AfterFailAll(c: ClientState, message: string): ClientState {
    c.(pending := [], log := c.log + FailureLog(c.pending, message))
  }

  function AfterDispose(c: ClientState): ClientState {
    if c.closed then c else AfterFailAll(c.(closed := true), DISPOSED)
  }

  predicate Distinct(ids: seq<nat>) {
    forall i, j :: 0 <= i < j < |ids| ==> ids[i] != ids[j]
  }

  // An id is pending or completed, never both and never twice.
  ghost predicate Settled(c: ClientState) {
    && (forall i :: 0 <= i < |c.pending| ==> c.pending[i] < c.nextId)
    && Distinct(c.pending)
    && (forall i :: 0 <= i < |c.log| ==> c.log[i].id < c.nextId && c.log[i].id !in c.pending)
    && (forall i, j :: 0 <= i < j < |c.log| ==> c.log[i].id != c.log[j].id)
    && (forall id: nat :: id < c.nextId ==> id in c.pending || IsCompleted(c, id))
  }

  ghost predicate IsCompleted(c: ClientState, id: nat) {
    exists i :: 0 <= i < |c.log| && c.log[i].id == id
  }

  lemma {:induction false} WithoutIs(pending: seq<nat>, id: nat)
    ensures forall x :: x in Without(pending, id) <==> x in pending && x != id
    ensures Distinct(pending) ==> Distinct(Without(pending, id))
  {
    if pending != [] {
      WithoutIs(pending[1..], id);
      assert pending == [pending[0]] + pending[1..];
      var rest := Without(pending[1..], id);
      if Distinct(pending) {
        assert Distinct(pending[1..]);
        assert forall k :: 0 <= k < |rest| ==> rest[k] in pending[1..];
      }
    }
  }

  lemma CallSettled(c: ClientState)
    requires Settled(c) && !c.closed
    ensures Settled(AfterCall(c)) && c.nextId in AfterCall(c).pending
  {
    var d := AfterCall(c);
    assert d.pending[|c.pending|] == c.nextId;
    forall id: nat | id < d.nextId ensures id in d.pending || IsCompleted(d, id) {
      assert id < c.nextId ==> id in c.pending || IsCompleted(c, id);
    }
  }

  lemma ResponseSettled(c: ClientState, r: Response)
    requires Settled(c)
    ensures Settled(AfterResponse(c, r))
  {
    if r.id in c.pending {
      var d := AfterResponse(c, r);
      WithoutIs(c.pending, r.id);
      assert d.log[|c.log|].id == r.id;
      forall i | 0 <= i < |d.pending| ensures d.pending[i] < d.nextId {
        assert d.pending[i] in c.pending;
      }
      hide Without;
      forall id: nat | id < d.nextId ensures id in d.pending || IsCompleted(d, id) {
        if id !in c.pending {
          var i :| 0 <= i < |c.log| && c.log[i].id == id;
          assert d.log[i].id == id;
        }
      }
    }
  }

  lemma FailAllSettled(c: ClientState, message: string)
    requires Settled(c)
    ensures Settled(AfterFailAll(c, message))
  {
    var d := AfterFailAll(c, message);
    forall id: nat | id < d.nextId ensures IsCompleted(d, id) {
      if id in c.pending {
        var k :| 0 <= k < |c.pending| && c.pending[k] == id;
        assert d.log[|c.log| + k].id == id;
      } else {
        var i :| 0 <= i < |c.log| && c.log[i].id == id;
        assert d.log[i].id == id;
      }
    }
  }

  class Client {
    var pending: seq<nat>
    var nextId: nat
    var closed: bool
    // Completions so far; in the app, the futures that have resolved.
    ghost var log: seq<Completion>

    ghost function State(): ClientState
      reads this
    {
      ClientState(nextId, closed, pending, log)
    }

    constructor ()
      ensures State() == ClientState(0, false, [], []) && Settled(State())
    {
      pending, nextId, closed, log := [], 0, false, [];
    }

    // Refused once the client is closed; otherwise the id the request is sent under.
    method Call() returns (ok: bool, id: nat)
      requires Settled(State())
      modifies this
      ensures ok == !old(closed) && Settled(State())
      ensures ok ==> id == old(nextId) && State() == AfterCall(old(State())) && id in pending
      ensures !ok ==> State() == old(State())
    {
      if closed {
        return false, 0;
      }
      CallSettled(State());
      id := nextId;
      nextId := nextId + 1;
      pending := pending + [id];
      ok := true;
    }

    // A response completes the request it names, if that is still pending.
    method Complete(r: Response)
      requires Settled(State())
      modifies this
      ensures Settled(State()) && State() == AfterResponse(old(State()), r)
    {
      ResponseSettled(State(), r);
      if r.id in pending {
        pending := Without(pending, r.id);
        log := log + [Completion(r.id, Answered(r))];
      }
    }

    method FailAll(message: string)
      requires Settled(State())
      modifies this
      ensures Settled(State()) && State() == AfterFailAll(old(State()), message)
    {
      hide Settled;
      FailAllSettled(State(), message);
      var completers := pending;
      pending := [];
      ghost var before := log;
      for i := 0 to |completers|
        invariant log == before + FailureLog(completers[..i], message)
        invariant pending == [] && nextId == old(nextId) && closed == old(closed)
      {
        assert FailureLog(completers[..i + 1], message) ==
          FailureLog(completers[..i], message) + [Completion(completers[i], Failed(message))];
        log := log + [Completion(completers[i], Failed(message))];
      }
      assert completers[..|completers|] == completers;
    }

    method Dispose()
      requires Settled(State())
      modifies this
      ensures Settled(State()) && State() == AfterDispose(old(State()))
    {
      if closed {
        return;
      }
      closed := true;
      FailAll(DISPOSED);
    }
  }

  /* ---- the whole protocol ---- */

  datatype World = World(
    client: ClientState,
    requests: map<nat, Request>,    // what every id was issued for
    commands: seq<Command>,         // on their way to the isolate
    responses: seq<Response>,       // on their way back
    alive: bool,                    // the isolate runs
    noticed: bool                   // its exit has been delivered
  )

  const INIT := World(ClientState(0, false, [], []), map[], [], [], true, false)

  datatype Step =
    | Call(body: Request)
    | Serve(answer: string)         // the isolate handles its next command
    | Deliver                       // the next response reaches the client
    | Die                           // the isolate is killed
    | NoticeExit                    // onExit reaches the client
    | Dispose

  predicate Enabled(w: World, step: Step) {
    match step
    case Call(_) => true
    case Serve(_) => w.alive && w.commands != []
    case Deliver => w.responses != [] && !w.client.closed
    case Die => w.alive
    case NoticeExit => !w.alive && !w.noticed && !w.client.closed
    case Dispose => true
  }

  function Apply(w: World, step: Step): World
    requires Enabled(w, step)
  {
    match step
    case Call(body) =>
      if w.client.closed then w
      else w.(client := AfterCall(w.client), requests := w.requests[w.client.nextId := body],
              commands := w.commands + [Ask(w.client.nextId, body)])
    case Serve(answer) =>
      var next, rest := w.commands[0], w.commands[1..];
      if next.Shutdown? then w.(commands := rest, alive := false)
      else w.(commands := rest, responses := w.responses + [Response(next.id, next.body, answer)])
    case Deliver => w.(client := AfterResponse(w.client, w.responses[0]), responses := w.responses[1..])
    case Die => w.(alive := false)
    case NoticeExit => w.(client := AfterFailAll(w.client, STOPPED), noticed := true)
    case Dispose =>
      if w.client.closed then w
      else w.(client := AfterDispose(w.client), commands := w.commands + [Shutdown])
  }

  // Each success so far carries the answer to the very request that was made.
  ghost predicate RightAnswers(w: World) {
    forall i :: 0 <= i < |w.client.log| ==>
      match w.client.log[i].outcome
      case Answered(r) =>
        r.id == w.client.log[i].id && r.id in w.requests && r.body == w.requests[r.id]
      case Failed(_) => true
  }

  ghost predicate Inv(w: World) {
    && Settled(w.client)
    && (w.client.closed ==> w.client.pending == [])
    && (forall id: nat :: id in w.requests <==> id < w.client.nextId)
    && (forall i :: 0 <= i < |w.commands| && w.commands[i].Ask? ==>
          w.commands[i].id in w.requests && w.commands[i].body == w.requests[w.commands[i].id])
    && (forall i :: 0 <= i < |w.responses| ==>
          w.responses[i].id in w.requests && w.responses[i].body == w.requests[w.responses[i].id])
    && RightAnswers(w)
  }

  lemma CallKeeps(w: World, body: Request)
    requires Inv(w)
    ensures Inv(Apply(w, Call(body)))
  {
    if !w.client.closed {
      CallSettled(w.client);
    }
    hide Settled;
  }

  lemma DeliverKeeps(w: World)
    requires Inv(w) && Enabled(w, Deliver)
    ensures Inv(Apply(w, Deliver))
  {
    hide Settled, Without;
    ResponseSettled(w.client, w.responses[0]);
  }

  lemma FailuresKeep(w: World, step: Step)
    requires Inv(w) && Enabled(w, step) && (step.NoticeExit? || step.Dispose?)
    ensures Inv(Apply(w, step))
  {
    hide Settled;
    FailAllSettled(w.client, STOPPED);
    SettledWhenClosed(w.client);
    FailAllSettled(w.client.(closed := true), DISPOSED);
  }

  lemma InvStep(w: World, step: Step)
    requires Inv(w) && Enabled(w, step)
    ensures Inv(Apply(w, step))
    ensures w.client.log <= Apply(w, step).client.log
    ensures w.client.closed ==> Apply(w, step).client.closed
  {
    hide Inv, Without, FailureLog;
    match step {
      case Call(body) => CallKeeps(w, body);
      case Serve(_) => IsolateKeeps(w, step);
      case Deliver => DeliverKeeps(w);
      case Die => IsolateKeeps(w, step);
      case NoticeExit => FailuresKeep(w, step);
      case Dispose => FailuresKeep(w, step);
    }
  }

  lemma IsolateKeeps(w: World, step: Step)
    requires Inv(w) && Enabled(w, step) && (step.Serve? || step.Die?)
    ensures Inv(Apply(w, step))
  {
    hide Settled;
  }

  lemma SettledWhenClosed(c: ClientState)
    requires Settled(c)
    ensures Settled(c.(closed := true))
  {
    forall id: nat | id < c.nextId && id !in c.pending ensures IsCompleted(c.(closed := true), id) {
      assert IsCompleted(c, id);
    }
  }

  /* ---- runs ---- */

  ghost predicate IsRun(run: seq<World>, steps: seq<Step>) {
    && |run| == |steps| + 1
    && (forall i :: 0 <= i < |steps| ==> Enabled(run[i], steps[i]) && run[i + 1] == Apply(run[i], steps[i]))
  }

  lemma {:induction false} RunInv(run: seq<World>, steps: seq<Step>, j: nat)
    requires IsRun(run, steps) && run[0] == INIT && j < |run|
    ensures Inv(run[j])
  {
    hide Inv, Apply, Enabled;
    if j == 0 {
      InitInv();
    } else {
      RunInv(run, steps, j - 1);
      InvStep(run[j - 1], steps[j - 1]);
    }
  }

  lemma InitInv()
    ensures Inv(INIT)
  {
  }

  lemma {:induction false} RunGrows(run: seq<World>, steps: seq<Step>, i: nat, j: nat)
    requires IsRun(run, steps) && run[0] == INIT && i <= j < |run|
    ensures run[i].client.log <= run[j].client.log
    ensures run[i].client.closed ==> run[j].client.closed
    decreases j
  {
    hide Inv, Apply, Enabled;
    if i < j {
      RunGrows(run, steps, i, j - 1);
      RunInv(run, steps, j - 1);
      InvStep(run[j - 1], steps[j - 1]);
    }
  }

  // Whatever the order of calls, responses, the isolate's death and disposal: the
  // ids issued are those pending and those completed, no id is both or completes
  // twice, a completion is final, and a success answers the request it was made for.
  lemma ExactlyOnce(run: seq<World>, steps: seq<Step>, i: nat, j: nat)
    requires IsRun(run, steps) && run[0] == INIT && i <= j < |run|
    ensures Settled(run[j].client) && RightAnswers(run[j])
    ensures run[i].client.log <= run[j].client.log
  {
    RunInv(run, steps, j);
    RunGrows(run, steps, i, j);
  }

  // What a caller is told whose request fails: which of the two it was.
  lemma FailuresSayWhy(w: World, step: Step)
    requires Inv(w) && Enabled(w, step)
    ensures var before, after := w.client, Apply(w, step).client;
      && before.log <= after.log
      && (forall i :: |before.log| <= i < |after.log| && after.log[i].outcome.Failed? ==>
            && after.log[i].id in before.pending
            && (step == NoticeExit || step == Step.Dispose)
            && after.log[i].outcome.message ==
                 if step == NoticeExit then "the database core stopped" else "the database core is shut down")
      && (step == NoticeExit || (step == Step.Dispose && !before.closed) ==>
            after.pending == [] && |after.log| == |before.log| + |before.pending|)
  {
    hide Inv, Without;
  }

  // Once disposed, nothing is ever pending again.
  lemma DisposedStaysEmpty(run: seq<World>, steps: seq<Step>, i: nat, j: nat)
    requires IsRun(run, steps) && run[0] == INIT && i < j < |run| && steps[i] == Step.Dispose
    ensures run[j].client.closed && run[j].client.pending == []
  {
    hide Settled;
    assert run[i + 1] == Apply(run[i], steps[i]);
    RunGrows(run, steps, i + 1, j);
    RunInv(run, steps, j);
  }

  // The isolate's exit fails what is pending at that moment, but does not close the
  // client. So while the client is not disposed, what hangs are exactly the requests
  // made after the exit was delivered: nobody answers them and nothing fails them.
  lemma HangsIffAfterExit(run: seq<World>, steps: seq<Step>, i: nat, j: nat, id: nat)
    requires IsRun(run, steps) && run[0] == INIT && i < j < |run| && steps[i] == NoticeExit
    requires !run[j].client.closed && id < run[j].client.nextId
    ensures id in run[j].client.pending <==> run[i].client.nextId <= id
  {
    hide Apply, Enabled, Settled;
    ExitIsNoticed(run, steps, i);
    RunInv(run, steps, i);
    RunInv(run, steps, j);
    if run[i].client.nextId <= id {
      CallAfterExitHangs(run, steps, i + 1, j, id);
    } else {
      ExitFailsAll(run[i], run[i + 1], id);
      RunGrows(run, steps, i + 1, j);
      CompletedStays(run[i + 1].client, run[j].client, id);
    }
  }

  lemma ExitIsNoticed(run: seq<World>, steps: seq<Step>, i: nat)
    requires IsRun(run, steps) && i < |steps| && steps[i] == NoticeExit
    ensures run[i + 1].noticed && run[i + 1].client == AfterFailAll(run[i].client, STOPPED)
    ensures run[i + 1].client.nextId == run[i].client.nextId
  {
    assert Enabled(run[i], steps[i]) && run[i + 1] == Apply(run[i], steps[i]);
  }

  // Whatever was issued before the exit is completed by it, or was already.
  lemma ExitFailsAll(w: World, next: World, id: nat)
    requires Inv(w) && next.client == AfterFailAll(w.client, STOPPED) && id < w.client.nextId
    ensures IsCompleted(next.client, id)
  {
    FailAllSettled(w.client, STOPPED);
    assert id in next.client.pending || IsCompleted(next.client, id);
  }

  lemma CompletedStays(c: ClientState, later: ClientState, id: nat)
    requires c.log <= later.log && IsCompleted(c, id) && Settled(later)
    ensures id !in later.pending
  {
    var k :| 0 <= k < |c.log| && c.log[k].id == id;
    assert later.log[k] == c.log[k];
  }

  lemma CallAfterExitHangs(run: seq<World>, steps: seq<Step>, i: nat, j: nat, id: nat)
    requires IsRun(run, steps) && run[0] == INIT && i <= j < |run|
    requires run[i].noticed && !run[j].client.closed
    requires run[i].client.nextId <= id < run[j].client.nextId
    ensures id in run[j].client.pending
  {
    RunInv(run, steps, j);
    NobodyAnswers(run, steps, i, j);
    assert id in run[j].client.pending || IsCompleted(run[j].client, id);
  }

  // The shortest such run: the isolate dies, its exit is delivered, a caller calls.
  lemma HangingRun(body: Request) returns (run: seq<World>, steps: seq<Step>)
    ensures steps == [Die, NoticeExit, Call(body)] && IsRun(run, steps) && run[0] == INIT
    ensures run[3].client.pending == [0] && !run[3].client.closed
  {
    steps := [Die, NoticeExit, Call(body)];
    var dead := Apply(INIT, Die);
    var noticed := Apply(dead, NoticeExit);
    run := [INIT, dead, noticed, Apply(noticed, Call(body))];
  }

  ghost predicate Unanswered(w: World, from: nat) {
    && w.noticed && !w.alive
    && (forall k :: 0 <= k < |w.responses| ==> w.responses[k].id < from)
    && (forall k :: 0 <= k < |w.client.log| ==> w.client.log[k].id < from)
  }

  lemma {:induction false} NobodyAnswers(run: seq<World>, steps: seq<Step>, i: nat, j: nat)
    requires IsRun(run, steps) && run[0] == INIT && i <= j < |run|
    requires run[i].noticed && !run[j].client.closed
    ensures Unanswered(run[j], run[i].client.nextId)
    decreases j
  {
    hide Apply, Enabled, Settled;
    if i == j {
      RunInv(run, steps, i);
      NoticedIsDead(run, steps, i);
      LogIsIssued(run[i]);
    } else {
      RunGrows(run, steps, j - 1, j);
      NobodyAnswers(run, steps, i, j - 1);
      UnansweredStep(run[j - 1], steps[j - 1], run[i].client.nextId);
    }
  }

  lemma LogIsIssued(w: World)
    requires Inv(w)
    ensures forall k :: 0 <= k < |w.client.log| ==> w.client.log[k].id < w.client.nextId
    ensures forall k :: 0 <= k < |w.responses| ==> w.responses[k].id < w.client.nextId
  {
  }

  lemma {:induction false} NoticedIsDead(run: seq<World>, steps: seq<Step>, j: nat)
    requires IsRun(run, steps) && run[0] == INIT && j < |run|
    ensures run[j].noticed ==> !run[j].alive
  {
    if j > 0 {
      NoticedIsDead(run, steps, j - 1);
      assert run[j] == Apply(run[j - 1], steps[j - 1]);
    }
  }

  lemma UnansweredStep(w: World, step: Step, from: nat)
    requires Enabled(w, step) && Unanswered(w, from) && !Apply(w, step).client.closed
    ensures Unanswered(Apply(w, step), from)
  {
  }
}
