/** Many sessions over one database, statement by statement, with disconnects and crashes
    (src/server.rs): every interleaving is a list of steps. */
module Server {
  import opened Wrappers
  import opened Transactions
  import opened Meaning
  import opened Handler
  import opened Recovery

  /** The shared database and the private state of each connected session. */
  datatype World = World(db: Db, sessions: map<nat, Session>) {
    function SessionOf(sid: nat): Session {
      if sid in sessions then sessions[sid] else Session(None, 0)
    }
  }

  /** A statement of a session, a client that goes away, or a crash followed by recovery. */
  datatype Step =
    | Run(sid: nat, stmt: Statement, order: HashOrder)
    | Disconnect(sid: nat)
    | Crash

  function Next(w: World, step: Step): World {
    match step
    case Run(sid, stmt, order) =>
      var effect := Execute(w.db, w.SessionOf(sid), stmt, order);
      World(effect.db, w.sessions[sid := effect.session])
    case Disconnect(sid) => World(w.db, w.sessions - {sid})
    case Crash => World(Booted(w.db.tx.log), map[])
  }

  function Play(w: World, steps: seq<Step>): World {
    if steps == [] then w else Next(Play(w, steps[..|steps| - 1]), steps[|steps| - 1])
  }

  /** A server started for the first time. */
  function Fresh(): World {
    World(Booted([]), map[])
  }

  predicate NoCrash(steps: seq<Step>) {
    forall i | 0 <= i < |steps| :: !steps[i].Crash?
  }

  lemma {:induction false} PlayConcat(w: World, a: seq<Step>, b: seq<Step>)
    ensures Play(w, a + b) == Play(Play(w, a), b)
    decreases |b|
  {
    if b == [] {
      assert a + b == a;
    } else {
      PlayConcat(w, a, b[..|b| - 1]);
      assert (a + b)[..|a + b| - 1] == a + b[..|b| - 1];
    }
  }
}
