/** Manager (core/dbcore/session.go:48-63, 68-113 and 153-206): sessions opened and
    closed by concurrent callers. Each critical section is one method of the class;
    the system below interleaves them with the steps a caller takes on its own. */
module Sessions {
  import opened Text

  // A database handle, told apart by when it was dialled.
  type Handle = nat

  // The counter behind session ids is a 64-bit one and wraps.
  const WRAP: nat := 0x1_0000_0000_0000_0000

  function SessionId(n: nat): string { "conn-" + Decimal(n) }

  // The k-th id handed out, counting from 1.
  function IdAt(k: nat): string { SessionId(k % WRAP) }

  function Next(counter: nat): nat { (counter + 1) % WRAP }

  /* ---- counting handles in the map ---- */

  ghost function IdsOf(m: map<string, Handle>, h: Handle): set<string> {
    set id | id in m && m[id] == h
  }

  ghost function HandleCount(m: map<string, Handle>, h: Handle): nat { |IdsOf(m, h)| }

  // taken lists the handles of m, each as often as m holds it.
  ghost predicate Lists(taken: seq<Handle>, m: map<string, Handle>) {
    forall h: Handle :: multiset(taken)[h] == HandleCount(m, h)
  }

  // 1 for the handle counted, 0 for any other.
  function One(h: Handle, db: Handle): nat { if h == db then 1 else 0 }

  lemma {:induction false} SubsetCard<T>(a: set<T>, b: set<T>)
    requires a <= b
    ensures |a| <= |b|
  {
    if a != {} {
      var x :| x in a;
      SubsetCard(a - {x}, b - {x});
    }
  }

  lemma CountBound(m: map<string, Handle>, h: Handle)
    ensures HandleCount(m, h) <= |m.Keys|
  {
    SubsetCard(IdsOf(m, h), m.Keys);
  }

  lemma NothingCounted()
    ensures Lists([], map[])
    ensures forall h: Handle :: HandleCount(map[], h) == 0
  {
    hide HandleCount;
    forall h: Handle ensures HandleCount(map[], h) == 0 {
      CountBound(map[], h);
    }
  }

  lemma IdsInsert(m: map<string, Handle>, id: string, db: Handle, grown: map<string, Handle>, h: Handle)
    requires id !in m && grown == m[id := db]
    ensures id !in IdsOf(m, h)
    ensures IdsOf(grown, h) == if h == db then IdsOf(m, h) + {id} else IdsOf(m, h)
  {
    forall k ensures k in IdsOf(grown, h) <==> k in IdsOf(m, h) || (h == db && k == id) {
    }
  }

  lemma CountInsertOne(m: map<string, Handle>, id: string, db: Handle, grown: map<string, Handle>, h: Handle)
    requires id !in m && grown == m[id := db]
    ensures HandleCount(grown, h) == HandleCount(m, h) + One(h, db)
  {
    hide IdsOf;
    IdsInsert(m, id, db, grown, h);
  }

  lemma CountInsert(m: map<string, Handle>, id: string, db: Handle, grown: map<string, Handle>)
    requires id !in m && grown == m[id := db]
    ensures forall h: Handle :: HandleCount(grown, h) == HandleCount(m, h) + One(h, db)
  {
    hide HandleCount;
    forall h: Handle ensures HandleCount(grown, h) == HandleCount(m, h) + One(h, db) {
      CountInsertOne(m, id, db, grown, h);
    }
  }

  lemma CountRemove(m: map<string, Handle>, id: string)
    requires id in m
    ensures forall h: Handle :: HandleCount(m, h) == HandleCount(m - {id}, h) + One(h, m[id])
  {
    assert (m - {id})[id := m[id]] == m;
    CountInsert(m - {id}, id, m[id], m);
  }

  /* ---- the system ---- */

  // Besides the manager's own state: what each caller holds between its steps, and
  // what has happened.
  datatype System = System(
    counter: nat, sessions: map<string, Handle>,
    dialled: nat,                     // handles opened so far: 0..dialled
    opening: set<Handle>,             // opened: ping pending, or not yet numbered
    numbered: map<Handle, string>,    // numbered, not yet registered
    held: multiset<Handle>,           // taken out of the map, not yet closed
    closed: seq<Handle>,              // calls of db.Close, in order
    issued: nat,                      // ids handed out so far
    gone: set<string>                 // ids taken out of the map
  )

  const INIT := System(0, map[], 0, {}, map[], multiset{}, [], 0, {})

  datatype Step =
    | Dial                            // Open: sql.Open gave a handle; the ping is pending
    | PingFails(db: Handle)           // Open: it did not; Open closes the handle
    | Number(db: Handle)              // Open: the ping succeeded; nextID
    | Enter(db: Handle)               // Open: under the lock, register
    | Take(id: string)                // Close: under the lock, remove
    | TakeAll(taken: seq<Handle>)     // CloseAll: under the lock, remove all
    | CloseDb(db: Handle)             // Close and CloseAll: db.Close

  ghost predicate Enabled(s: System, step: Step) {
    match step
    case Dial => true
    case PingFails(db) => db in s.opening
    case Number(db) => db in s.opening
    case Enter(db) => db in s.numbered
    case Take(id) => true
    case TakeAll(taken) => Lists(taken, s.sessions)
    case CloseDb(db) => db in s.held
  }

  ghost function Apply(s: System, step: Step): System
    requires Enabled(s, step)
  {
    match step
    case Dial => s.(dialled := s.dialled + 1, opening := s.opening + {s.dialled})
    case PingFails(db) => s.(opening := s.opening - {db}, closed := s.closed + [db])
    case Number(db) =>
      s.(counter := Next(s.counter), issued := s.issued + 1, opening := s.opening - {db},
         numbered := s.numbered[db := SessionId(Next(s.counter))])
    case Enter(db) =>
      s.(sessions := s.sessions[s.numbered[db] := db], numbered := s.numbered - {db})
    case Take(id) =>
      if id !in s.sessions then s
      else s.(sessions := s.sessions - {id}, held := s.held + multiset{s.sessions[id]}, gone := s.gone + {id})
    case TakeAll(taken) =>
      s.(sessions := map[], held := s.held + multiset(taken), gone := s.gone + s.sessions.Keys)
    case CloseDb(db) => s.(held := s.held - multiset{db}, closed := s.closed + [db])
  }

  // Where a handle is, counting every place it is in.
  ghost function Places(s: System, h: Handle): nat {
    (if h in s.opening then 1 else 0) + (if h in s.numbered then 1 else 0)
    + HandleCount(s.sessions, h) + s.held[h] + multiset(s.closed)[h]
  }

  // Every handle dialled is in exactly one place: on its way in, in the map, held
  // by one closer, or closed, once.
  ghost predicate Conserved(s: System) {
    forall h: Handle :: Places(s, h) == if h < s.dialled then 1 else 0
  }

  // The ids in use and the ids gone are told apart, and all were handed out.
  ghost predicate IdsApart(s: System) {
    && (forall a, b :: a in s.numbered && b in s.numbered && s.numbered[a] == s.numbered[b] ==> a == b)
    && (forall a :: a in s.numbered ==>
          s.numbered[a] !in s.sessions && s.numbered[a] !in s.gone && WasIssued(s, s.numbered[a]))
    && (forall id :: id in s.sessions ==> id !in s.gone && WasIssued(s, id))
    && (forall id :: id in s.gone ==> WasIssued(s, id))
  }

  ghost predicate WasIssued(s: System, id: string) {
    exists k :: 1 <= k <= s.issued && id == IdAt(k)
  }

  ghost predicate Inv(s: System) {
    s.counter == s.issued % WRAP && Conserved(s) && IdsApart(s)
  }

  lemma SessionIdInjective(m: nat, n: nat)
    requires SessionId(m) == SessionId(n)
    ensures m == n
  {
    assert SessionId(m)[5..] == Decimal(m) && SessionId(n)[5..] == Decimal(n);
    DecimalInjective(m, n);
  }

  // The ids handed out are all different exactly as long as the counter has not
  // come round.
  lemma IdsDistinctIff(n: nat)
    ensures (forall j, k :: 1 <= j < k <= n ==> IdAt(j) != IdAt(k)) <==> n <= 18446744073709551616
  {
    hide SessionId;
    if n <= WRAP {
      forall j, k | 1 <= j < k <= n ensures IdAt(j) != IdAt(k) {
        assert j % WRAP == j && (k % WRAP == k || (k == WRAP && k % WRAP == 0));
        if IdAt(j) == IdAt(k) {
          SessionIdInjective(j % WRAP, k % WRAP);
        }
      }
    } else {
      var j, k := 1, WRAP + 1;
      assert j % WRAP == 1 == k % WRAP;
      assert 1 <= j < k <= n && IdAt(j) == IdAt(k);
    }
  }

  // What an id looks like.
  lemma IdAtIs(k: nat)
    ensures IdAt(k) == "conn-" + Decimal(k % 18446744073709551616)
  {
  }

  lemma InitInv()
    ensures Inv(INIT)
  {
    hide HandleCount;
    NothingCounted();
  }

  lemma NewIdIsFresh(s: System)
    requires Inv(s) && s.issued < WRAP
    ensures !WasIssued(s, SessionId(Next(s.counter)))
    ensures Next(s.counter) == (s.issued + 1) % WRAP
  {
    hide SessionId;
    assert Next(s.counter) == (s.issued + 1) % WRAP;
    forall k | 1 <= k <= s.issued ensures IdAt(k) != SessionId(Next(s.counter)) {
      if IdAt(k) == SessionId(Next(s.counter)) {
        SessionIdInjective(k % WRAP, Next(s.counter));
      }
    }
  }

  lemma IssuedGrows(s: System, t: System)
    requires s.issued <= t.issued
    ensures forall id :: WasIssued(s, id) ==> WasIssued(t, id)
  {
    hide SessionId;
  }

  lemma ConservedStep(s: System, step: Step)
    requires Inv(s) && Enabled(s, step)
    ensures Conserved(Apply(s, step))
  {
    hide SessionId, WasIssued, HandleCount;
    var t := Apply(s, step);
    match step {
      case Enter(db) => CountInsert(s.sessions, s.numbered[db], db, t.sessions);
      case Take(id) =>
        if id in s.sessions {
          CountRemove(s.sessions, id);
        }
      case TakeAll(_) => NothingCounted();
      case _ =>
    }
    forall h: Handle ensures Places(t, h) == if h < t.dialled then 1 else 0 {
      assert Places(s, h) == if h < s.dialled then 1 else 0;
    }
  }

  lemma NumberApart(s: System, db: Handle)
    requires Inv(s) && Enabled(s, Number(db)) && s.issued < WRAP
    ensures IdsApart(Apply(s, Number(db)))
  {
    hide SessionId, Conserved, WasIssued;
    IssuedGrows(s, Apply(s, Number(db)));
    NewIdIsFresh(s);
    NewIdIsIssued(s);
  }

  lemma MoveApart(s: System, step: Step)
    requires Inv(s) && Enabled(s, step) && (step.Enter? || step.Take?)
    ensures IdsApart(Apply(s, step))
  {
    hide SessionId, Conserved, WasIssued;
    IssuedGrows(s, Apply(s, step));
  }

  lemma IdsApartStep(s: System, step: Step)
    requires Inv(s) && Enabled(s, step) && (step.Number? ==> s.issued < WRAP)
    ensures IdsApart(Apply(s, step))
  {
    hide SessionId, Conserved, WasIssued, Lists;
    match step {
      case Number(db) => NumberApart(s, db);
      case Enter(_) => MoveApart(s, step);
      case Take(_) => MoveApart(s, step);
      case _ => IssuedGrows(s, Apply(s, step));
    }
  }

  lemma NewIdIsIssued(s: System)
    requires s.counter == s.issued % WRAP
    ensures forall t: System :: t.issued == s.issued + 1 ==> WasIssued(t, SessionId(Next(s.counter)))
  {
    hide SessionId;
    assert Next(s.counter) == (s.issued + 1) % WRAP;
    assert IdAt(s.issued + 1) == SessionId(Next(s.counter));
  }

  // Every step keeps the invariant until the counter comes round.
  lemma InvStep(s: System, step: Step)
    requires Inv(s) && Enabled(s, step) && (step.Number? ==> s.issued < WRAP)
    ensures Inv(Apply(s, step))
    ensures s.gone <= Apply(s, step).gone && s.issued <= Apply(s, step).issued
  {
    hide SessionId, HandleCount, WasIssued, Conserved, IdsApart;
    ConservedStep(s, step);
    IdsApartStep(s, step);
  }

  // Whatever leaves the map is gone, and only that; a handle that is closed is listed.
  lemma LeavingIsGone(s: System, step: Step)
    requires Enabled(s, step)
    ensures var t := Apply(s, step);
      && t.gone == s.gone + (s.sessions.Keys - t.sessions.Keys)
      && t.closed == s.closed + (if step.PingFails? || step.CloseDb? then [step.db] else [])
  {
  }

  /* ---- what holds however often the counter has come round ---- */

  // No handle is in two places.
  ghost predicate Bounded(s: System) {
    forall h: Handle :: Places(s, h) <= if h < s.dialled then 1 else 0
  }

  lemma CountOverwrite(m: map<string, Handle>, id: string, db: Handle)
    requires id in m
    ensures forall h: Handle :: HandleCount(m[id := db], h) + One(h, m[id]) == HandleCount(m, h) + One(h, db)
  {
    hide HandleCount, One;
    CountRemove(m, id);
    CountInsert(m - {id}, id, db, m[id := db]);
    assert (m - {id})[id := db] == m[id := db];
  }

  lemma BoundedStep(s: System, step: Step)
    requires Bounded(s) && Enabled(s, step)
    ensures Bounded(Apply(s, step))
  {
    hide SessionId, HandleCount;
    var t := Apply(s, step);
    match step {
      case Enter(db) =>
        if s.numbered[db] in s.sessions {
          CountOverwrite(s.sessions, s.numbered[db], db);
        } else {
          CountInsert(s.sessions, s.numbered[db], db, t.sessions);
        }
      case Take(id) =>
        if id in s.sessions {
          CountRemove(s.sessions, id);
        }
      case TakeAll(_) => NothingCounted();
      case _ =>
    }
    forall h: Handle ensures Places(t, h) <= if h < t.dialled then 1 else 0 {
      assert Places(s, h) <= if h < s.dialled then 1 else 0;
    }
  }

  // Registering loses no handle exactly when its id is not in the map already; an
  // id that has come round drops the session it replaces, open and unreachable.
  lemma EnterKeepsIff(s: System, db: Handle)
    requires Conserved(s) && Enabled(s, Enter(db))
    ensures Conserved(Apply(s, Enter(db))) <==> s.numbered[db] !in s.sessions
  {
    hide SessionId, HandleCount;
    var id, t := s.numbered[db], Apply(s, Enter(db));
    if id in s.sessions {
      var lost := s.sessions[id];
      CountRemove(s.sessions, id);
      CountOverwrite(s.sessions, id, db);
      assert Places(s, lost) == 1 && Places(s, db) == 1;
      assert Places(t, lost) == 0;
    } else {
      CountInsert(s.sessions, id, db, t.sessions);
      forall h: Handle ensures Places(t, h) == if h < t.dialled then 1 else 0 {
        assert Places(s, h) == if h < s.dialled then 1 else 0;
      }
    }
  }

  lemma MappedIsNotHeld(s: System, id: string)
    requires Bounded(s) && id in s.sessions
    ensures s.held[s.sessions[id]] == 0
  {
    hide HandleCount;
    CountRemove(s.sessions, id);
    assert Places(s, s.sessions[id]) <= 1;
  }

  /* ---- the manager ---- */

  class Manager {
    var sessions: map<string, Handle>
    var lastSeq: nat
    // The system this manager is the shared part of. Between the methods below its
    // callers may take steps of their own, which leave the shared part alone.
    ghost var sys: System

    ghost predicate Valid()
      reads this
    {
      sessions == sys.sessions && lastSeq == sys.counter && Bounded(sys)
    }

    constructor ()
      ensures Valid() && sys == INIT
    {
      InitInv();
      ConservedIsBounded(INIT);
      sessions, lastSeq, sys := map[], 0, INIT;
    }

    /* the steps callers take on their own, which leave the shared part alone */

    ghost method Dial() returns (db: Handle)
      requires Valid()
      modifies this`sys
      ensures Valid() && sys == Apply(old(sys), Step.Dial) && db == old(sys).dialled && db in sys.opening
    {
      hide Bounded;
      BoundedStep(sys, Step.Dial);
      db := sys.dialled;
      sys := Apply(sys, Step.Dial);
    }

    ghost method FailPing(db: Handle)
      requires Valid() && Enabled(sys, PingFails(db))
      modifies this`sys
      ensures Valid() && sys == Apply(old(sys), PingFails(db))
    {
      hide Bounded;
      BoundedStep(sys, PingFails(db));
      sys := Apply(sys, PingFails(db));
    }

    ghost method CloseHandle(db: Handle)
      requires Valid() && Enabled(sys, CloseDb(db))
      modifies this`sys
      ensures Valid() && sys == Apply(old(sys), CloseDb(db))
    {
      hide Bounded;
      BoundedStep(sys, CloseDb(db));
      sys := Apply(sys, CloseDb(db));
    }

    /* the critical sections */

    // nextID("conn"): one atomic add, on behalf of the Open that dialled db.
    method NextId(ghost db: Handle) returns (id: string)
      requires Valid() && Enabled(sys, Number(db))
      modifies this
      ensures Valid() && sys == Apply(old(sys), Number(db)) && id == sys.numbered[db]
      ensures Inv(old(sys)) && old(sys).issued < WRAP ==> !WasIssued(old(sys), id)
    {
      hide Inv, SessionId, WasIssued, Bounded;
      BoundedStep(sys, Number(db));
      if Inv(sys) && sys.issued < WRAP {
        NewIdIsFresh(sys);
      }
      lastSeq := (lastSeq + 1) % WRAP;
      id := SessionId(lastSeq);
      sys := Apply(sys, Number(db));
    }

    // The last step of Open, under the lock.
    method Register(id: string, db: Handle)
      requires Valid() && Enabled(sys, Enter(db)) && id == sys.numbered[db]
      modifies this
      ensures Valid() && sys == Apply(old(sys), Enter(db))
      ensures sessions == old(sessions)[id := db]
    {
      hide Bounded;
      BoundedStep(sys, Enter(db));
      sessions := sessions[id := db];
      sys := Apply(sys, Enter(db));
    }

    method Get(id: string) returns (found: bool, db: Handle)
      requires Valid()
      ensures found <==> id in sessions
      ensures found ==> db == sessions[id]
      ensures Inv(sys) && id in sys.gone ==> !found
    {
      hide HandleCount, WasIssued, SessionId, Conserved;
      found := id in sessions;
      db := if found then sessions[id] else 0;
    }

    // The locked part of Close: whoever gets the session has to close it.
    method Detach(id: string) returns (found: bool, db: Handle)
      requires Valid()
      modifies this
      ensures Valid() && sys == Apply(old(sys), Take(id))
      ensures found <==> id in old(sessions)
      ensures found ==> db == old(sessions)[id]
      ensures found ==> old(sys).held[db] == 0 && sys.held[db] == 1
      ensures sessions == old(sessions) - {id}
    {
      hide HandleCount, Bounded;
      BoundedStep(sys, Take(id));
      found := id in sessions;
      db := if found then sessions[id] else 0;
      if found {
        MappedIsNotHeld(sys, id);
      }
      sessions := sessions - {id};
      sys := Apply(sys, Take(id));
    }

    // The locked part of CloseAll, in whatever order the map is walked.
    method DetachAll() returns (taken: seq<Handle>)
      requires Valid()
      modifies this
      ensures Lists(taken, old(sessions)) && sessions == map[]
      ensures Valid() && sys == Apply(old(sys), TakeAll(taken))
    {
      hide Lists, Bounded;
      taken := [];
      var left := sessions.Keys;
      NothingCounted();
      assert sessions - left == map[];
      while left != {}
        invariant unchanged(this)
        invariant left <= sessions.Keys && Lists(taken, sessions - left)
      {
        var id :| id in left;
        ListsStep(taken, sessions - left, id, sessions[id]);
        assert (sessions - left)[id := sessions[id]] == sessions - (left - {id});
        taken := taken + [sessions[id]];
        left := left - {id};
      }
      assert sessions - left == sessions;
      BoundedStep(sys, TakeAll(taken));
      sessions := map[];
      sys := Apply(sys, TakeAll(taken));
    }

    /* the operations, when nothing comes between their steps */

    // db is the handle sql.Open gives out next.
    method Open(db: Handle, pingFails: bool) returns (ok: bool, id: string)
      requires Valid() && db == sys.dialled
      modifies this
      ensures Valid() && ok == !pingFails
      ensures pingFails ==> sessions == old(sessions) && db in sys.closed
      ensures ok ==> sessions == old(sessions)[id := db] && db !in sys.closed
      ensures ok && Inv(old(sys)) && old(sys).issued < WRAP ==> Inv(sys) && id !in old(sessions)
    {
      hide Inv, Bounded, SessionId, Places;
      NewHandle(sys);
      ghost var before := sys;
      ghost var handle := Dial();
      if pingFails {
        FailPing(db);
        return false, "";
      }
      id := NextId(db);
      Register(id, db);
      if Inv(before) && before.issued < WRAP {
        InvStep(before, Step.Dial);
        InvStep(Apply(before, Step.Dial), Number(db));
        NumberedIsApart(Apply(Apply(before, Step.Dial), Number(db)), db);
        InvStep(Apply(Apply(before, Step.Dial), Number(db)), Enter(db));
      }
      ok := true;
    }

    method Close(id: string)
      requires Valid()
      modifies this
      ensures Valid() && sessions == old(sessions) - {id}
      ensures id in old(sessions) ==>
        sys == Apply(Apply(old(sys), Take(id)), CloseDb(old(sessions)[id])) && old(sessions)[id] in sys.closed
      ensures id !in old(sessions) ==> sys == old(sys)
    {
      hide Bounded;
      var found, db := Detach(id);
      if found {
        CloseHandle(db);
      }
    }

    method CloseAll()
      requires Valid()
      modifies this
      ensures Valid() && sessions == map[]
      ensures forall h: Handle ::
        multiset(sys.closed)[h] == multiset(old(sys).closed)[h] + HandleCount(old(sessions), h)
    {
      hide HandleCount, Apply, Enabled, Lists, Places, Inv, Bounded, Conserved;
      ghost var before := sys;
      var taken := DetachAll();
      AllTaken(before, taken);
      for k := 0 to |taken|
        invariant Valid() && sessions == map[]
        invariant multiset(taken[k..]) <= sys.held
        invariant sys.closed == before.closed + taken[..k]
      {
        CloseOne(sys, taken, k);
        CloseHandle(taken[k]);
      }
      assert taken[..|taken|] == taken;
      CountClosed(before, taken);
    }
  }

  lemma AllTaken(s: System, taken: seq<Handle>)
    requires Lists(taken, s.sessions)
    ensures Enabled(s, TakeAll(taken))
    ensures taken[0..] == taken && multiset(taken[0..]) <= Apply(s, TakeAll(taken)).held
    ensures Apply(s, TakeAll(taken)).closed == s.closed + taken[..0]
  {
    hide Lists, HandleCount;
  }

  lemma CloseOne(s: System, taken: seq<Handle>, k: nat)
    requires k < |taken| && multiset(taken[k..]) <= s.held
    ensures Enabled(s, CloseDb(taken[k]))
    ensures var t := Apply(s, CloseDb(taken[k]));
      && multiset(taken[k + 1..]) <= t.held && t.sessions == s.sessions
      && t.closed == s.closed + [taken[k]]
    ensures taken[..k + 1] == taken[..k] + [taken[k]]
  {
    assert taken[k..] == [taken[k]] + taken[k + 1..];
  }

  lemma CountClosed(s: System, taken: seq<Handle>)
    requires Lists(taken, s.sessions)
    ensures forall h: Handle ::
      multiset(s.closed + taken)[h] == multiset(s.closed)[h] + HandleCount(s.sessions, h)
  {
    hide HandleCount;
  }

  // A handle not dialled yet is nowhere.
  lemma NewHandle(s: System)
    requires Bounded(s)
    ensures s.dialled !in s.opening && s.dialled !in s.numbered && s.dialled !in s.closed
  {
    assert Places(s, s.dialled) <= 0;
    assert s.dialled in s.closed ==> multiset(s.closed)[s.dialled] > 0;
  }

  lemma NumberedIsApart(s: System, db: Handle)
    requires Inv(s) && db in s.numbered
    ensures s.numbered[db] !in s.sessions
  {
    hide Conserved, WasIssued;
  }

  lemma ListsStep(taken: seq<Handle>, m: map<string, Handle>, id: string, db: Handle)
    requires Lists(taken, m) && id !in m
    ensures Lists(taken + [db], m[id := db])
  {
    hide HandleCount;
    CountInsert(m, id, db, m[id := db]);
  }

  /* ---- runs ---- */

  // States one after another, each by some enabled step of some caller.
  ghost predicate IsRun(run: seq<System>, steps: seq<Step>) {
    && |run| == |steps| + 1
    && (forall i :: 0 <= i < |steps| ==> Enabled(run[i], steps[i]) && run[i + 1] == Apply(run[i], steps[i]))
  }

  lemma {:induction false} RunInv(run: seq<System>, steps: seq<Step>, i: nat, j: nat)
    requires IsRun(run, steps) && run[0] == INIT && i <= j < |run|
    requires run[|run| - 1].issued <= WRAP
    ensures Inv(run[j]) && run[i].gone <= run[j].gone
    decreases j
  {
    hide Inv, Enabled, Apply;
    if j == 0 {
      InitInv();
    } else {
      RunInv(run, steps, if i < j then i else j - 1, j - 1);
      IssuedIsMonotone(run, steps, j, |run| - 1);
      NumberCounts(run[j - 1], steps[j - 1]);
      InvStep(run[j - 1], steps[j - 1]);
    }
  }

  lemma {:induction false} IssuedIsMonotone(run: seq<System>, steps: seq<Step>, i: nat, j: nat)
    requires IsRun(run, steps) && i <= j < |run|
    ensures run[i].issued <= run[j].issued
    decreases j
  {
    hide Enabled, Apply;
    if i < j {
      IssuedIsMonotone(run, steps, i, j - 1);
      NumberCounts(run[j - 1], steps[j - 1]);
    }
  }

  lemma NumberCounts(s: System, step: Step)
    requires Enabled(s, step)
    ensures Apply(s, step).issued == s.issued + if step.Number? then 1 else 0
  {
  }

  lemma {:induction false} RunBounded(run: seq<System>, steps: seq<Step>, j: nat)
    requires IsRun(run, steps) && run[0] == INIT && j < |run|
    ensures Bounded(run[j])
  {
    hide Bounded, Enabled, Apply;
    if j == 0 {
      InitInv();
      ConservedIsBounded(INIT);
    } else {
      RunBounded(run, steps, j - 1);
      BoundedStep(run[j - 1], steps[j - 1]);
    }
  }

  lemma ConservedIsBounded(s: System)
    requires Conserved(s)
    ensures Bounded(s)
  {
    forall h: Handle ensures Places(s, h) <= if h < s.dialled then 1 else 0 {
      assert Places(s, h) == if h < s.dialled then 1 else 0;
    }
  }

  // However Open, Close and CloseAll interleave, and however long the run: no
  // handle is closed twice, none is closed while some closer still holds it or the
  // map still leads to it.
  lemma ClosedAtMostOnce(run: seq<System>, steps: seq<Step>, j: nat, h: Handle)
    requires IsRun(run, steps) && run[0] == INIT && j < |run|
    ensures multiset(run[j].closed)[h] <= 1
    ensures h in run[j].closed ==> run[j].held[h] == 0 && HandleCount(run[j].sessions, h) == 0
  {
    hide HandleCount, IsRun;
    RunBounded(run, steps, j);
    assert Places(run[j], h) <= 1;
    assert h in run[j].closed ==> multiset(run[j].closed)[h] > 0;
  }

  // Until the counter comes round, moreover, every handle is accounted for and an
  // id once taken out of the map never resolves again.
  lemma SessionSafety(run: seq<System>, steps: seq<Step>, i: nat, j: nat)
    requires IsRun(run, steps) && run[0] == INIT && i <= j < |run|
    requires run[|run| - 1].issued <= WRAP
    ensures forall h: Handle :: h < run[j].dialled ==> Places(run[j], h) == 1
    ensures forall id :: id in run[i].gone ==> id !in run[j].sessions
  {
    hide HandleCount, WasIssued, IsRun;
    RunInv(run, steps, i, j);
  }
}
