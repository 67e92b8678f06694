/**
 * The lock file and the graph file, shared by any number of processes. A process's own steps are those of
 * `FileLock` and `GraphStore.transaction`; the steps of different processes interleave in any order.
 */
module Store {
  import opened Basics
  import opened Records
  import opened Operations
  import opened Guards
  import opened Runs

  type Process = nat

  /** What the file system says of a created file. An identity may come back once its file is gone. */
  type Inode = nat

  /**
   * Where a process stands. `identity` is what it noted of the lock file it created; `ticket`, a history
   * value, is how many had created one before.
   */
  datatype Place =
    | Outside
    | Locked(identity: Inode, ticket: nat)
    | Working(identity: Inode, ticket: nat, graph: Nodes, made: seq<Op>)
    | Validated(identity: Inode, ticket: nat, graph: Nodes, made: seq<Op>)
    | Leaving(identity: Inode)
    | Unlinking(identity: Inode)
    | Dead

  predicate Holding(l: Place) {
    !l.Outside? && !l.Dead?
  }

  /** Holding, with the save still ahead. */
  predicate Unsaved(l: Place) {
    l.Locked? || l.Working? || l.Validated?
  }

  /** A committed transaction: the ticket its process drew with the lock, and the operations it made. */
  datatype Commit = Commit(ticket: nat, ops: seq<Op>)

  /**
   * The lock file if there is one, the stored graph, and every process's place. `entered` lists who created
   * the lock, in order, and `log` what was saved: both are history, and no step reads them.
   */
  datatype World = World(lock: Option<Inode>, stored: Nodes, places: map<Process, Place>, entered: seq<Process>,
    log: seq<Commit>)
  {
    function At(p: Process): Place {
      if p in places then places[p] else Outside
    }

    function Move(p: Process, l: Place): World {
      this.(places := places[p := l])
    }
  }

  datatype Step =
    | Create(p: Process, inode: Inode)   // the exclusive creation succeeds
    | Stumble(p: Process, inode: Inode)  // it succeeds, but the write of the pid fails, and `__exit__` never runs
    | Refused(p: Process)                // the file is there: try again, or time out
    | Load(p: Process)
    | Perform(p: Process, op: Op)
    | Validate(p: Process)
    | Save(p: Process)                   // the atomic replacement
    | Raise(p: Process)                  // any error before it: an operation, a check or the size limit refuses
    | Compare(p: Process)                // `__exit__` looks whether the lock file is its own
    | Unlink(p: Process)                 // and then removes whatever is at that path
    | Die(p: Process)                    // killed, wherever it stands

  ghost predicate CanStep(w: World, s: Step) {
    var l := w.At(s.p);
    match s
    case Create(_, _) => l.Outside? && w.lock.None?
    case Stumble(_, _) => l.Outside? && w.lock.None?
    case Refused(_) => l.Outside? && w.lock.Some?
    case Load(_) => l.Locked? && Accepts(w.stored)
    case Perform(_, op) => l.Working? && Accepted(l.graph, op)
    case Validate(_) => l.Working? && Accepts(l.graph)
    case Save(_) => l.Validated?
    case Raise(_) => Unsaved(l)
    case Compare(_) => l.Leaving?
    case Unlink(_) => l.Unlinking?
    case Die(_) => !l.Dead?
  }

  ghost function After(w: World, s: Step): World
    requires CanStep(w, s)
  {
    var p, l := s.p, w.At(s.p);
    match s
    case Create(_, inode) => w.Move(p, Locked(inode, |w.entered|)).(lock := Some(inode), entered := w.entered + [p])
    case Stumble(_, inode) => w.(lock := Some(inode))
    case Refused(_) => w
    case Load(_) => w.Move(p, Working(l.identity, l.ticket, Promote(w.stored), []))
    case Perform(_, op) => w.Move(p, Working(l.identity, l.ticket, Operations.After(l.graph, op), l.made + [op]))
    case Validate(_) => w.Move(p, Validated(l.identity, l.ticket, Promote(l.graph), l.made))
    case Save(_) => w.Move(p, Leaving(l.identity)).(stored := l.graph, log := w.log + [Commit(l.ticket, l.made)])
    case Raise(_) => w.Move(p, Leaving(l.identity))
    case Compare(_) => w.Move(p, if w.lock == Some(l.identity) then Unlinking(l.identity) else Outside)
    case Unlink(_) => w.Move(p, Outside).(lock := None)
    case Die(_) => w.Move(p, Dead)
  }

  ghost predicate Steps(w: World, steps: seq<Step>)
    decreases |steps|
  {
    steps == [] || (CanStep(w, steps[0]) && Steps(After(w, steps[0]), steps[1..]))
  }

  ghost function Reached(w: World, steps: seq<Step>): World
    requires Steps(w, steps)
    decreases |steps|
  {
    if steps == [] then w else Reached(After(w, steps[0]), steps[1..])
  }

  // ----- what every interleaving keeps -----

  function Holder(w: World, p: Process): bool {
    Holding(w.At(p))
  }

  /** At most one process is inside, and the lock file there is the one it created. */
  ghost predicate Exclusive(w: World) {
    && (forall p: Process, q: Process {:trigger Holder(w, p), Holder(w, q)} | Holder(w, p) && Holder(w, q) :: p == q)
    && (forall p: Process {:trigger Holder(w, p)} | Holder(w, p) :: w.lock == Some(w.At(p).identity))
  }

  /** The operations of all committed transactions, in the order of the log. */
  function Committed(log: seq<Commit>): seq<Op> {
    if log == [] then [] else Committed(log[..|log| - 1]) + log[|log| - 1].ops
  }

  /** The stored graph is the first one with every committed operation made on it, and each was accepted. */
  ghost predicate Composed(g: Nodes, w: World) {
    Run(g, Committed(w.log)) && w.stored == Final(g, Committed(w.log)) && Valid(w.stored)
  }

  /** A private copy is the stored graph with the transaction's operations made on it. */
  ghost predicate CopyOk(stored: Nodes, l: Place) {
    l.Working? || l.Validated? ==> Run(stored, l.made) && l.graph == Final(stored, l.made)
  }

  ghost predicate Private(w: World) {
    forall p: Process {:trigger w.At(p)} :: CopyOk(w.stored, w.At(p))
  }

  /** The log is in lock order, and whoever still has to save drew a later ticket than all of it. */
  ghost predicate Ordered(w: World) {
    && (forall i, j {:trigger w.log[i], w.log[j]} | 0 <= i < j < |w.log| :: w.log[i].ticket < w.log[j].ticket)
    && (forall i {:trigger w.log[i]} | 0 <= i < |w.log| :: w.log[i].ticket < |w.entered|)
    && (forall p: Process {:trigger w.At(p)} | Unsaved(w.At(p)) ::
          w.At(p).ticket < |w.entered| && w.entered[w.At(p).ticket] == p)
    && (forall p: Process, i {:trigger w.At(p), w.log[i]} | Unsaved(w.At(p)) && 0 <= i < |w.log| ::
          w.log[i].ticket < w.At(p).ticket)
  }

  lemma StepExclusive(w: World, s: Step)
    requires CanStep(w, s) && Exclusive(w)
    ensures Exclusive(After(w, s))
  {
    hide Accepts, Accepted, Operations.After;
    var v := After(w, s);
    forall p: Process, q: Process | Holder(v, p) && Holder(v, q) ensures p == q {
      assert p != s.p ==> Holder(w, p);
      assert q != s.p ==> Holder(w, q);
      assert !s.Create? && Holder(v, s.p) ==> Holder(w, s.p);
    }
    forall p: Process | Holder(v, p) ensures v.lock == Some(v.At(p).identity) {
      assert p != s.p ==> Holder(w, p);
      assert !s.Create? && Holder(v, s.p) ==> Holder(w, s.p);
      assert s.Unlink? ==> Holder(w, s.p);
    }
  }

  lemma {:induction false} RunAppend(g: Nodes, a: seq<Op>, b: seq<Op>)
    requires Run(g, a) && Run(Final(g, a), b)
    ensures Run(g, a + b) && Final(g, a + b) == Final(Final(g, a), b)
    decreases |a|
  {
    hide Enabled, Operations.After;
    if a == [] {
      assert a + b == b;
    } else {
      assert (a + b)[1..] == a[1..] + b;
      RunAppend(Operations.After(g, a[0]), a[1..], b);
    }
  }

  /** One more accepted operation on a private copy. */
  lemma CopyGrows(g: Nodes, made: seq<Op>, op: Op)
    requires Run(g, made) && Accepted(Final(g, made), op)
    ensures Run(g, made + [op]) && Final(g, made + [op]) == Operations.After(Final(g, made), op)
  {
    hide Enabled, Operations.After;
    var h := Final(g, made);
    assert Run(Operations.After(h, op), []);
    assert [op][1..] == [];
    assert Run(h, [op]) && Final(h, [op]) == Operations.After(h, op);
    RunAppend(g, made, [op]);
  }

  lemma StepPrivate(w: World, s: Step)
    requires CanStep(w, s) && Exclusive(w) && Private(w) && Valid(w.stored)
    ensures Private(After(w, s))
  {
    hide Accepts, Accepted, Operations.After, Valid, Promote;
    var v, l := After(w, s), w.At(s.p);
    assert CopyOk(w.stored, l);
    if s.Load? {
      ValidIsAccepted(w.stored);
    } else if s.Perform? {
      CopyGrows(w.stored, l.made, s.op);
    } else if s.Validate? {
      RunKeepsValid(w.stored, l.made);
      ValidIsAccepted(l.graph);
    }
    forall p: Process ensures CopyOk(v.stored, v.At(p)) {
      if p != s.p {
        assert CopyOk(w.stored, w.At(p)) && v.At(p) == w.At(p);
        if s.Save? {
          assert Holder(w, s.p) && !Holder(w, p);
        }
      }
    }
  }

  lemma StepComposed(g: Nodes, w: World, s: Step)
    requires CanStep(w, s) && Composed(g, w) && Private(w)
    ensures Composed(g, After(w, s))
  {
    hide Accepts, Accepted, Operations.After, Valid, Run, Final, Promote;
    var v, l := After(w, s), w.At(s.p);
    if s.Save? {
      assert CopyOk(w.stored, l);
      assert v.log[..|w.log|] == w.log;
      RunAppend(g, Committed(w.log), l.made);
      RunKeepsValid(w.stored, l.made);
    }
  }

  lemma StepOrdered(w: World, s: Step)
    requires CanStep(w, s) && Exclusive(w) && Ordered(w)
    ensures Ordered(After(w, s))
  {
    hide Accepts, Accepted, Operations.After, Promote;
    var v, l := After(w, s), w.At(s.p);
    SoleHolder(w, s.p);
    forall p: Process | Unsaved(v.At(p))
      ensures v.At(p).ticket < |v.entered| && v.entered[v.At(p).ticket] == p
      ensures forall i {:trigger v.log[i]} | 0 <= i < |v.log| :: v.log[i].ticket < v.At(p).ticket
    {
      if p != s.p {
        assert v.At(p) == w.At(p);
      }
    }
  }

  lemma SoleHolder(w: World, p: Process)
    requires Exclusive(w)
    ensures Holder(w, p) ==> forall q: Process {:trigger w.At(q)} | q != p :: !Holding(w.At(q))
  {
    forall q: Process | q != p ensures Holder(w, p) ==> !Holding(w.At(q)) {
      assert Holder(w, p) ==> !Holder(w, q);
    }
  }

  ghost predicate Kept(g: Nodes, w: World) {
    Exclusive(w) && Private(w) && Composed(g, w) && Ordered(w)
  }

  lemma StepKept(g: Nodes, w: World, s: Step)
    requires CanStep(w, s) && Kept(g, w)
    ensures Kept(g, After(w, s))
  {
    hide CanStep, After, Exclusive, Private, Ordered, Run, Final, Valid;
    StepExclusive(w, s);
    StepPrivate(w, s);
    StepComposed(g, w, s);
    StepOrdered(w, s);
  }

  lemma {:induction false} StepsKeep(g: Nodes, w: World, steps: seq<Step>)
    requires Kept(g, w) && Steps(w, steps)
    ensures Kept(g, Reached(w, steps))
    decreases |steps|
  {
    hide CanStep, After, Kept;
    if steps != [] {
      StepKept(g, w, steps[0]);
      StepsKeep(g, After(w, steps[0]), steps[1..]);
    }
  }

  /**
   * Transactions serialise: over every interleaving of any number of processes creating, holding, dying with
   * and unlinking the lock, at most one is inside, and the stored graph is the sequential composition of the
   * committed transactions in lock order. What raised or died before its save is nowhere in it.
   */
  lemma TransactionsSerialise(g: Nodes, w: World, steps: seq<Step>)
    requires Valid(g) && w == World(None, g, map[], [], []) && Steps(w, steps)
    ensures Exclusive(Reached(w, steps))
    ensures Composed(g, Reached(w, steps))
    ensures Ordered(Reached(w, steps))
  {
    hide CanStep, After;
    StepsKeep(g, w, steps) by { assert Final(g, []) == g; }
  }

  /** Of two processes at least one is outside or dead, and whoever is inside made the lock file that is there. */
  lemma OneInside(g: Nodes, w: World, steps: seq<Step>, p: Process, q: Process)
    requires Valid(g) && w == World(None, g, map[], [], []) && Steps(w, steps) && p != q
    ensures var v := Reached(w, steps);
      && (v.At(p).Outside? || v.At(p).Dead? || v.At(q).Outside? || v.At(q).Dead?)
      && (!v.At(p).Outside? && !v.At(p).Dead? ==> v.lock == Some(v.At(p).identity))
  {
    hide CanStep, After, Composed, Ordered;
    TransactionsSerialise(g, w, steps);
    assert Holder(Reached(w, steps), p) ==> !Holder(Reached(w, steps), q);
  }

  /** A process leaving finds the lock file its own, whatever identities the file system hands out again. */
  lemma ExitFindsItsOwn(g: Nodes, w: World, p: Process)
    requires Kept(g, w) && w.At(p).Leaving?
    ensures CanStep(w, Compare(p)) && After(w, Compare(p)).At(p).Unlinking?
    ensures var v := After(w, Compare(p)); CanStep(v, Unlink(p)) && After(v, Unlink(p)).lock.None?
  {
    hide Composed, Private, Ordered;
    assert Holder(w, p);
  }

  /** From any reachable world with no lock file, a process let through alone commits an operation and unlocks. */
  lemma AloneItCommits(g: Nodes, w: World, p: Process, inode: Inode, op: Op)
    requires Kept(g, w) && w.lock.None? && w.At(p).Outside? && Accepted(w.stored, op)
    ensures var steps := [Create(p, inode), Load(p), Perform(p, op), Validate(p), Save(p), Compare(p), Unlink(p)];
      && Steps(w, steps)
      && Reached(w, steps).stored == Operations.After(w.stored, op)
      && Reached(w, steps).lock.None? && Reached(w, steps).At(p).Outside?
  {
    hide Valid, Structure, RuntimeOk, Enabled, TextFits, Operations.After, Promote, Accepts, Exclusive, Private,
      Composed, Ordered, Run, Final, Committed, Steps, Reached;
    StoredIsValid(g, w);
    var next := Operations.After(w.stored, op);
    KeepsValid(w.stored, op);
    ValidIsAccepted(w.stored);
    ValidIsAccepted(next);
    var w1 := After(w, Create(p, inode));
    var w2 := After(w1, Load(p));
    var w3 := After(w2, Perform(p, op));
    ItCommits(w3, p, inode);
    Chain(w2, [Perform(p, op), Validate(p), Save(p), Compare(p), Unlink(p)]);
    Chain(w1, [Load(p), Perform(p, op), Validate(p), Save(p), Compare(p), Unlink(p)]);
    Chain(w, [Create(p, inode), Load(p), Perform(p, op), Validate(p), Save(p), Compare(p), Unlink(p)]);
  }

  /** From its operations to its leaving, a process that finds its own lock file. */
  lemma ItCommits(w: World, p: Process, inode: Inode)
    requires w.At(p).Working? && w.At(p).identity == inode && w.lock == Some(inode)
    requires Accepts(w.At(p).graph) && Promote(w.At(p).graph) == w.At(p).graph
    ensures var steps := [Validate(p), Save(p), Compare(p), Unlink(p)];
      && Steps(w, steps)
      && Reached(w, steps).stored == w.At(p).graph
      && Reached(w, steps).lock.None? && Reached(w, steps).At(p).Outside?
  {
    hide Accepts, Promote, Steps, Reached;
    var w1 := After(w, Validate(p));
    var w2 := After(w1, Save(p));
    var w3 := After(w2, Compare(p));
    Chain(After(w3, Unlink(p)), []);
    Chain(w3, [Unlink(p)]);
    Chain(w2, [Compare(p), Unlink(p)]);
    Chain(w1, [Save(p), Compare(p), Unlink(p)]);
    Chain(w, [Validate(p), Save(p), Compare(p), Unlink(p)]);
  }

  lemma StoredIsValid(g: Nodes, w: World)
    requires Kept(g, w)
    ensures Valid(w.stored)
  {
  }

  /** The first step of a list, taken. */
  lemma Chain(w: World, steps: seq<Step>)
    requires steps != [] ==> CanStep(w, steps[0]) && Steps(After(w, steps[0]), steps[1..])
    ensures Steps(w, steps)
    ensures Reached(w, steps) == if steps == [] then w else Reached(After(w, steps[0]), steps[1..])
  {
  }

  // ----- a lock nobody will release -----

  /** The file is there and whoever created it is gone. */
  ghost predicate Stale(w: World) {
    w.lock.Some? && forall p: Process {:trigger Holder(w, p)} :: !Holder(w, p)
  }

  /** Nothing steals a stale lock: no continuation ever enters, and the stored graph stays as it is. */
  lemma {:induction false} StaleIsForever(w: World, steps: seq<Step>)
    requires Stale(w) && Steps(w, steps)
    ensures Stale(Reached(w, steps)) && Reached(w, steps).lock == w.lock
    ensures Reached(w, steps).stored == w.stored && Reached(w, steps).log == w.log
    decreases |steps|
  {
    hide Accepts, Accepted, Operations.After, Promote;
    if steps != [] {
      var s := steps[0];
      var v := After(w, s);
      assert !Holder(w, s.p);
      forall p: Process ensures !Holder(v, p) {
        assert !Holder(w, p);
      }
      StaleIsForever(v, steps[1..]);
    }
  }

  /** Dying inside is exactly what makes a lock stale, beside failing to note the pid after creating it. */
  lemma DyingInsideIsStale(g: Nodes, w: World, s: Step)
    requires CanStep(w, s) && Kept(g, w) && !Stale(w)
    ensures Stale(After(w, s)) <==> s.Stumble? || (s.Die? && Holder(w, s.p))
  {
    hide Accepts, Accepted, Operations.After, Promote, Composed, Private, Ordered;
    var v := After(w, s);
    if s.Stumble? || (s.Die? && Holder(w, s.p)) {
      forall p: Process ensures !Holder(v, p) {
        if Holder(w, p) {
          assert s.Die? && Holder(w, s.p);
        }
      }
    } else if v.lock.Some? {
      if !s.Die? && !s.Refused? && !s.Unlink? {
        assert s.Compare? ==> Holder(w, s.p);
        assert Holder(v, s.p);
      } else {
        assert w.lock.Some?;
        var p: Process :| Holder(w, p);
        assert p != s.p;
        assert Holder(v, p);
      }
    }
  }
}
