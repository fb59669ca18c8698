/** The RPC driver at the grain of single assignments. The mutex lets one write, open or release
    run at a time; the reply interrupt may come between any two of its assignments, and runs to its
    end (one processor). Reads take no mutex: they may come anywhere, except that one file is not
    read and written by two threads at once. */
module RpcGrain {
  import opened Rpc

  /** How far the holder of the mutex has come: each names the last thing done. */
  datatype Pc =
    | Free
    | FileSet(cl: int, was: int)
    | Copied(cl: int, m: Msg)
    | CurrentSet(cl: int, m: Msg)
    | PendingSet(cl: int, m: Msg)
    | ReadySeen(cl: int, m: Msg)
    | BusySet(cl: int, m: Msg)
    | FullSeen(cl: int, m: Msg)
    | SendFailed(cl: int, m: Msg)
    | CurrentCleared(cl: int, m: Msg)
    | UnusedSet(cl: int)
    | CurrentSeen(cl: int)
    | CurrentPassed(cl: int)

  datatype Grain = Grain(n: Net, pc: Pc)

  datatype Act =
    | StartOpen(cl: int, f: int)
    | StartWrite(cl: int, m: Msg)
    | FailWrite(cl: int, left: Msg)
    | StartRelease(cl: int)
    | Go(fifoFull: bool)
    | Irq
    | ReadReply(cl: int)

  type Dsp = (int, Msg) -> (int, int)

  ghost predicate Shape(n: Net) {
    |n.cs| == MAX_CLIENTS && |n.session| == MAX_CLIENTS && |n.asked| == MAX_CLIENTS && |n.harm| == MAX_CLIENTS
      && -1 <= n.current < MAX_CLIENTS
  }

  ghost predicate Sound(s: Grain) {
    Shape(s.n) && (s.pc.Free? || 0 <= s.pc.cl < MAX_CLIENTS)
  }

  ghost predicate Enabled(s: Grain, a: Act)
    requires Sound(s)
  {
    match a
    case StartOpen(cl, f) =>
      s.pc.Free? && 0 <= cl < MAX_CLIENTS && s.n.cs[cl].state == UNUSED && f != 0
      && forall i :: 0 <= i < MAX_CLIENTS && s.n.cs[i].state != UNUSED ==> s.n.cs[i].filep != f
    case StartWrite(cl, m) => s.pc.Free? && 0 <= cl < MAX_CLIENTS && s.n.current == -1 && s.n.cs[cl].state != UNUSED
    case FailWrite(cl, left) => s.pc.Free? && 0 <= cl < MAX_CLIENTS && s.n.current == -1 && s.n.cs[cl].state != UNUSED
    case StartRelease(cl) => s.pc.Free? && 0 <= cl < MAX_CLIENTS && s.n.cs[cl].state != UNUSED
    case Go(_) => !s.pc.Free?
    case Irq => s.n.inFlight.Flight?
    case ReadReply(cl) => 0 <= cl < MAX_CLIENTS && s.n.cs[cl].state == REPLY_AVAIL && (s.pc.Free? || s.pc.cl != cl)
  }

  ghost function SetClient(n: Net, cl: int, c: Client): (r: Net)
    requires 0 <= cl < |n.cs|
    ensures Shape(n) ==> Shape(r)
  {
    n.(cs := n.cs[cl := c])
  }

  /** The next assignment of the mutex holder. */
  ghost function Advance(s: Grain, fifoFull: bool): (r: Grain)
    requires Sound(s) && !s.pc.Free?
    ensures Sound(r)
  {
    var n, cl := s.n, s.pc.cl;
    match s.pc
    case FileSet(_, _) =>
      var n' := SetClient(n, cl, n.cs[cl].(state := IDLE));
      Grain(n'.(session := n.session[cl := n.sessions], sessions := n.sessions + 1), Free)
    case Copied(_, m) => Grain(n.(current := cl), CurrentSet(cl, m))
    case CurrentSet(_, m) => Grain(SetClient(n, cl, n.cs[cl].(state := REPLY_PENDING)), PendingSet(cl, m))
    case PendingSet(_, m) => Grain(n, if n.ready then ReadySeen(cl, m) else SendFailed(cl, m))
    case ReadySeen(_, m) => Grain(n.(ready := false), BusySet(cl, m))
    case BusySet(_, m) =>
      if fifoFull then Grain(n, FullSeen(cl, m))
      else Grain(n.(inFlight := Flight(cl, n.session[cl], n.sent, n.cs[cl].msg), sent := n.sent + 1,
        asked := n.asked[cl := (n.sent, n.cs[cl].msg)],
                     harm := n.harm[cl := Whole]), Free)
    case FullSeen(_, m) => Grain(n.(ready := true), SendFailed(cl, m))
    case SendFailed(_, m) => Grain(n.(current := -1), CurrentCleared(cl, m))
    case CurrentCleared(_, m) => Grain(SetClient(n, cl, n.cs[cl].(state := IDLE)), Free)
    case UnusedSet(_) => Grain(n, if n.current == cl then CurrentSeen(cl) else CurrentPassed(cl))
    case CurrentSeen(_) => Grain(n.(current := -1), CurrentPassed(cl))
    case CurrentPassed(_) => Grain(SetClient(n, cl, n.cs[cl].(filep := 0)), Free)
  }

  /** The reply interrupt, whole. */
  ghost function Interrupted(n: Net, dsp: Dsp): (r: Net)
    requires Shape(n) && n.inFlight.Flight?
    ensures Shape(r)
  {
    var (r1, r2) := dsp(n.inFlight.id, n.inFlight.msg);
    if n.current != -1 && n.cs[n.current].state == REPLY_PENDING then
      var c := n.cs[n.current];
      SetClient(n, n.current, c.(msg := c.msg.(d0 := r1, d1 := r2), state := REPLY_AVAIL)).(current := -1,
        ready := true, inFlight := NoFlight)
    else
      n.(ready := true, inFlight := NoFlight)
  }

  ghost function Next(s: Grain, a: Act, dsp: Dsp): (r: Grain)
    requires Sound(s) && Enabled(s, a)
    ensures Sound(r)
  {
    match a
    case StartOpen(cl, f) => Grain(SetClient(s.n, cl, s.n.cs[cl].(filep := f)), FileSet(cl, s.n.cs[cl].filep))
    case StartWrite(cl, m) => Grain(SetClient(s.n, cl, s.n.cs[cl].(msg := m)), Copied(cl, m))
    case FailWrite(cl, left) => Grain(SetClient(s.n, cl, s.n.cs[cl].(msg := left)).(harm := s.n.harm[cl := Left(left)]),
      Free)
    case StartRelease(cl) => Grain(SetClient(s.n, cl, s.n.cs[cl].(state := UNUSED)), UnusedSet(cl))
    case Go(full) => Advance(s, full)
    case Irq => s.(n := Interrupted(s.n, dsp))
    case ReadReply(cl) => s.(n := SetClient(s.n, cl, s.n.cs[cl].(state := IDLE)))
  }

  /** The client the mutex holder works on, as it counts from outside: a write counts as turned away
      until its message is sent; a release counts as done from its first assignment. */
  ghost function ViewClient(pc: Pc, c: Client): Client {
    match pc
    case Free => c
    case FileSet(_, was) => c.(filep := was)
    case UnusedSet(_) => c.(filep := 0)
    case CurrentSeen(_) => c.(filep := 0)
    case CurrentPassed(_) => c.(filep := 0)
    case _ => Client(IDLE, c.filep, pc.m)
  }

  /** Is the mutex holder writing? */
  ghost predicate Writing(pc: Pc) {
    !(pc.Free? || pc.FileSet? || Releasing(pc))
  }

  ghost predicate Releasing(pc: Pc) {
    pc.UnusedSet? || pc.CurrentSeen? || pc.CurrentPassed?
  }

  /** The state between operations that a state in the middle of one stands for. */
  ghost function View(s: Grain): (r: Net)
    requires Sound(s)
    ensures Shape(r)
  {
    var n, pc := s.n, s.pc;
    if pc.Free? then n
    else n.(cs := n.cs[pc.cl := ViewClient(pc, n.cs[pc.cl])],
            current := if Writing(pc) || (Releasing(pc) && n.current == pc.cl) then -1 else n.current,
            ready := if Writing(pc) then n.inFlight == NoFlight else n.ready)
  }

  /** What the mutex holder relies on where it stands. */
  ghost predicate Stands(s: Grain)
    requires Sound(s)
  {
    var n := s.n;
    var idle := n.ready <==> n.inFlight == NoFlight;
    match s.pc
    case Free => true
    case FileSet(cl, _) => n.cs[cl].filep != 0 && n.cs[cl].state == UNUSED
                         && forall i :: 0 <= i < MAX_CLIENTS && n.cs[i].state != UNUSED ==>
                            n.cs[i].filep != n.cs[cl].filep
    case Copied(cl, m) => idle && n.current == -1 && n.cs[cl].state in {IDLE, REPLY_AVAIL} && n.cs[cl].msg == m
    case CurrentSet(cl, m) => idle && n.current == cl && n.cs[cl].state in {IDLE, REPLY_AVAIL} && n.cs[cl].msg == m
    case PendingSet(cl, m) => idle && n.current == cl && n.cs[cl].state == REPLY_PENDING && n.cs[cl].msg == m
    case ReadySeen(cl, m) => n.ready && n.inFlight == NoFlight && n.current == cl && n.cs[cl].state == REPLY_PENDING
      && n.cs[cl].msg == m
    case BusySet(cl, m) => !n.ready && n.inFlight == NoFlight && n.current == cl && n.cs[cl].state == REPLY_PENDING
      && n.cs[cl].msg == m
    case FullSeen(cl, m) => !n.ready && n.inFlight == NoFlight && n.current == cl && n.cs[cl].state == REPLY_PENDING
    case SendFailed(cl, m) =>
      idle
      && if n.inFlight.Flight? || n.current == cl then n.current == cl && n.cs[cl].state == REPLY_PENDING
         else n.current == -1
    case CurrentCleared(cl, m) => idle && n.current == -1
    case UnusedSet(cl) => n.cs[cl].state == UNUSED
    case CurrentSeen(cl) => n.cs[cl].state == UNUSED && n.current == cl
    case CurrentPassed(cl) => n.cs[cl].state == UNUSED && n.current != cl
  }

  ghost predicate Invariant(s: Grain, dsp: Dsp) {
    Sound(s) && InOrder(View(s), dsp) && Stands(s)
  }

  /** The one race: a reply that comes after a writer has set its state and before it looks at the mailbox. */
  ghost predicate Racing(s: Grain, a: Act) {
    a.Irq? && s.pc.PendingSet?
  }

  /** What an assignment is, seen between operations. */
  datatype Move =
    | Nothing
    | Opens(cl: int, f: int)
    | TurnsAway(cl: int, m: Msg)
    | Accepts(cl: int, m: Msg)
    | Spoils(cl: int, left: Msg)
    | Releases(cl: int)
    | Replies
    | PicksUp(cl: int)

  ghost function MoveOf(s: Grain, a: Act): Move
    requires Sound(s)
  {
    match a
    case StartOpen(_, _) => Move.Nothing
    case StartWrite(cl, m) => TurnsAway(cl, m)
    case FailWrite(cl, left) => Spoils(cl, left)
    case StartRelease(cl) => Releases(cl)
    case Irq => Replies
    case ReadReply(cl) => PicksUp(cl)
    case Go(full) =>
      match s.pc
      case FileSet(cl, _) => Opens(cl, s.n.cs[cl].filep)
      case BusySet(cl, m) => if full then Move.Nothing else Accepts(cl, m)
      case CurrentCleared(cl, m) => TurnsAway(cl, s.n.cs[cl].msg)
      case _ => Move.Nothing
  }

  /** The whole operations and interrupts of the driver, as steps between states. */
  ghost predicate Moves(n: Net, n': Net, mv: Move, dsp: Dsp)
    requires Shape(n)
  {
    match mv
    case Nothing => n' == n
    case Opens(cl, f) =>
      && 0 <= cl < MAX_CLIENTS && n.cs[cl].state == UNUSED && f != 0 && FindIn(n.cs, f) == -1
      && n' == n.(cs := n.cs[cl := n.cs[cl].(filep := f, state := IDLE)], session := n.session[cl := n.sessions],
         sessions := n.sessions + 1)
    case TurnsAway(cl, m) =>
      0 <= cl < MAX_CLIENTS && n.current == -1 && n.cs[cl].state != UNUSED
        && n' == n.(cs := n.cs[cl := Client(IDLE, n.cs[cl].filep, m)])
    case Accepts(cl, m) =>
      && 0 <= cl < MAX_CLIENTS && n.current == -1 && n.ready && n.cs[cl].state != UNUSED
      && n' == n.(cs := n.cs[cl := Client(REPLY_PENDING, n.cs[cl].filep, m)], current := cl, ready := false,
                  inFlight := Flight(cl, n.session[cl], n.sent, m), sent := n.sent + 1,
                    asked := n.asked[cl := (n.sent, m)],
                  harm := n.harm[cl := Whole])
    case Spoils(cl, left) =>
      && 0 <= cl < MAX_CLIENTS && n.current == -1 && n.cs[cl].state != UNUSED
      && n' == n.(cs := n.cs[cl := n.cs[cl].(msg := left)], harm := n.harm[cl := Left(left)])
    case Releases(cl) =>
      && 0 <= cl < MAX_CLIENTS && n.cs[cl].state != UNUSED
      && n' == n.(cs := n.cs[cl := n.cs[cl].(filep := 0, state := UNUSED)],
         current := if n.current == cl then -1 else n.current)
    case Replies =>
      && n.inFlight.Flight?
      && var (r1, r2) := dsp(n.inFlight.id, n.inFlight.msg);
         n' == n.(cs := if n.current == -1 then n.cs
           else n.cs[n.current := Client(REPLY_AVAIL, n.cs[n.current].filep, Msg(n.cs[n.current].msg.comp, r1, r2))],
                  current := -1, ready := true, inFlight := NoFlight)
    case PicksUp(cl) =>
      0 <= cl < MAX_CLIENTS && n.cs[cl].state == REPLY_AVAIL
      && n' == n.(cs := n.cs[cl := n.cs[cl].(state := IDLE)])
  }

  /** An operation part way: seen from outside, nothing, or exactly the operation. */
  lemma GoRefines(s: Grain, full: bool, dsp: Dsp)
    requires Invariant(s, dsp) && !s.pc.Free?
    ensures Moves(View(s), View(Advance(s, full)), MoveOf(s, Go(full)), dsp)
  {
    hide FindIn, InOrder, Moves, Advance, View, MoveOf;
    match s.pc {
      case FileSet(cl, _) => OpenRefines(s, full, dsp);
      case BusySet(_, _) => SendRefines(s, full, dsp);
      case _ => StepRefines(s, full, dsp);
    }
  }

  lemma OpenRefines(s: Grain, full: bool, dsp: Dsp)
    requires Invariant(s, dsp) && s.pc.FileSet?
    ensures Moves(View(s), View(Advance(s, full)), MoveOf(s, Go(full)), dsp)
  {
    hide FindIn, InOrder;
    NoSlot(View(s).cs, s.n.cs[s.pc.cl].filep);
  }

  lemma SendRefines(s: Grain, full: bool, dsp: Dsp)
    requires Invariant(s, dsp) && s.pc.BusySet?
    ensures Moves(View(s), View(Advance(s, full)), MoveOf(s, Go(full)), dsp)
  {
    hide FindIn, InOrder;
  }

  lemma StepRefines(s: Grain, full: bool, dsp: Dsp)
    requires Invariant(s, dsp) && !s.pc.Free? && !s.pc.FileSet? && !s.pc.BusySet?
    ensures Moves(View(s), View(Advance(s, full)), MoveOf(s, Go(full)), dsp)
  {
    hide FindIn, InOrder;
  }

  lemma GoStands(s: Grain, full: bool, dsp: Dsp)
    requires Invariant(s, dsp) && !s.pc.Free?
    ensures Stands(Advance(s, full))
  {
    hide FindIn, InOrder, View;
  }

  /** The interrupt, wherever it comes, is the reply seen from outside, except in the race. */
  lemma IrqRefines(s: Grain, dsp: Dsp)
    requires Invariant(s, dsp) && Enabled(s, Irq) && !Racing(s, Irq)
    ensures Moves(View(s), View(Next(s, Irq, dsp)), Replies, dsp) && Stands(Next(s, Irq, dsp))
  {
    hide FindIn, InOrder;
    var c := View(s).current;
    if c != -1 { Waits(View(s), dsp); }
    if s.n.current != -1 && s.pc.Free? { Waits(View(s), dsp); }
  }

  lemma Waits(n: Net, dsp: Dsp)
    requires InOrder(n, dsp)
    ensures Shape(n) && (n.ready <==> n.inFlight == NoFlight)
    ensures n.current != -1 ==> n.cs[n.current].state == REPLY_PENDING && n.inFlight.Flight?
    ensures n.current != -1 ==>
      n.inFlight == Flight(n.current, n.session[n.current], n.asked[n.current].0, n.asked[n.current].1)
    ensures n.current == -1 && n.inFlight.Flight? ==>
              0 <= n.inFlight.slot < MAX_CLIENTS
                && (n.session[n.inFlight.slot] != n.inFlight.session || n.cs[n.inFlight.slot].state == UNUSED)
    ensures forall i :: 0 <= i < MAX_CLIENTS && i != n.current ==> n.cs[i].state != REPLY_PENDING
  {
    if n.current != -1 { assert SlotOK(n, dsp, n.current); }
    forall i | 0 <= i < MAX_CLIENTS && i != n.current
      ensures n.cs[i].state != REPLY_PENDING
    {
      assert SlotOK(n, dsp, i);
    }
  }

  /** An operation starts. */
  lemma StartRefines(s: Grain, a: Act, dsp: Dsp)
    requires Invariant(s, dsp) && Enabled(s, a) && !a.Irq? && !a.Go? && !a.ReadReply?
    ensures Moves(View(s), View(Next(s, a, dsp)), MoveOf(s, a), dsp) && Stands(Next(s, a, dsp))
  {
    hide FindIn, InOrder;
    Waits(View(s), dsp);
  }

  /** A reply is read, wherever the mutex holder stands. */
  lemma ReadRefines(s: Grain, cl: int, dsp: Dsp)
    requires Invariant(s, dsp) && Enabled(s, ReadReply(cl))
    ensures Moves(View(s), View(Next(s, ReadReply(cl), dsp)), PicksUp(cl), dsp) && Stands(Next(s, ReadReply(cl), dsp))
  {
    hide FindIn, InOrder, ViewClient;
  }

  /** Each whole operation keeps the driver in order. */
  lemma MoveKeeps(n: Net, n': Net, mv: Move, dsp: Dsp)
    requires InOrder(n, dsp) && Moves(n, n', mv, dsp)
    ensures InOrder(n', dsp)
  {
    hide FindIn, InOrder;
    match mv {
      case Nothing =>
      case Opens(cl, f) => Opened(n, n', dsp, cl, f);
      case TurnsAway(cl, m) => TurnedAway(n, n', dsp, cl, m);
      case Accepts(cl, m) => Accepted(n, n', dsp, cl, m);
      case Spoils(cl, left) => Faulted(n, n', dsp, cl, left);
      case Releases(cl) => Released(n, n', dsp, cl);
      case Replies =>
        var (r1, r2) := dsp(n.inFlight.id, n.inFlight.msg);
        Replied(n, n', dsp, r1, r2);
      case PicksUp(cl) => PickedUp(n, n', dsp, cl);
    }
  }

  /** Refinement: each assignment, outside the race, is nothing or one whole operation of the
      driver, and keeps the invariant. */
  lemma Refines(s: Grain, a: Act, dsp: Dsp)
    requires Invariant(s, dsp) && Enabled(s, a) && !Racing(s, a)
    ensures Moves(View(s), View(Next(s, a, dsp)), MoveOf(s, a), dsp)
    ensures Invariant(Next(s, a, dsp), dsp)
  {
    hide Moves, Stands, View, InOrder, Advance, Interrupted;
    match a {
      case Go(full) =>
        GoRefines(s, full, dsp);
        GoStands(s, full, dsp);
      case Irq => IrqRefines(s, dsp);
      case ReadReply(cl) => ReadRefines(s, cl, dsp);
      case _ => StartRefines(s, a, dsp);
    }
    MoveKeeps(View(s), View(Next(s, a, dsp)), MoveOf(s, a), dsp);
  }

  // ----- an operation left to itself

  ghost function Remaining(pc: Pc): nat {
    match pc
    case Free => 0
    case FileSet(_, _) => 1
    case Copied(_, _) => 8
    case CurrentSet(_, _) => 7
    case PendingSet(_, _) => 6
    case ReadySeen(_, _) => 5
    case BusySet(_, _) => 4
    case FullSeen(_, _) => 3
    case SendFailed(_, _) => 2
    case CurrentCleared(_, _) => 1
    case UnusedSet(_) => 3
    case CurrentSeen(_) => 2
    case CurrentPassed(_) => 1
  }

  /** The mutex holder goes on, uninterrupted, until it gives the mutex back. */
  ghost function Finished(s: Grain, full: bool): (r: Grain)
    requires Sound(s)
    ensures Sound(r) && r.pc.Free? && (s.pc.Free? ==> r == s)
    decreases Remaining(s.pc)
  {
    if s.pc.Free? then s else Finished(Advance(s, full), full)
  }

  /** The whole operation that starts with `a`: a write is accepted iff the mailbox is ready and has room. */
  ghost function WholeOf(n: Net, a: Act, full: bool): Move
    requires a.StartOpen? || a.StartWrite? || a.StartRelease?
  {
    match a
    case StartOpen(cl, f) => Opens(cl, f)
    case StartWrite(cl, m) => if n.ready && !full then Accepts(cl, m) else TurnsAway(cl, m)
    case StartRelease(cl) => Releases(cl)
  }

  /** One assignment more. */
  lemma Onward(s: Grain, full: bool) returns (r: Grain)
    requires Sound(s) && !s.pc.Free?
    ensures r == Advance(s, full) && Sound(r) && Finished(s, full) == Finished(r, full)
  {
    r := Advance(s, full);
  }

  lemma OpenAlone(s: Grain, a: Act, full: bool, dsp: Dsp)
    requires Shape(s.n) && s.pc.Free? && a.StartOpen? && Sound(s) && Enabled(s, a)
    ensures Moves(s.n, Finished(Next(s, a, dsp), full).n, Opens(a.cl, a.f), dsp)
  {
    hide FindIn;
    NoSlot(s.n.cs, a.f);
    var s1 := Next(s, a, dsp);
    assert Finished(s1, full) == Finished(Advance(s1, full), full) == Advance(s1, full);
  }

  lemma ReleaseAlone(s: Grain, a: Act, full: bool, dsp: Dsp)
    requires Sound(s) && Enabled(s, a) && a.StartRelease?
    ensures Moves(s.n, Finished(Next(s, a, dsp), full).n, Releases(a.cl), dsp)
  {
    hide Finished;
    var s1 := Onward(Next(s, a, dsp), full);
    var s2 := Onward(s1, full);
    if s.n.current == a.cl { var s3 := Onward(s2, full); }
  }

  lemma AcceptedAlone(s: Grain, a: Act, dsp: Dsp)
    requires Sound(s) && Enabled(s, a) && a.StartWrite? && s.n.ready
    ensures Moves(s.n, Finished(Next(s, a, dsp), false).n, Accepts(a.cl, a.m), dsp)
  {
    hide Finished;
    var s1 := Onward(Next(s, a, dsp), false);
    var s2 := Onward(s1, false);
    var s3 := Onward(s2, false);
    var s4 := Onward(s3, false);
    var s5 := Onward(s4, false);
  }

  lemma TurnedAwayAlone(s: Grain, a: Act, full: bool, dsp: Dsp)
    requires Sound(s) && Enabled(s, a) && a.StartWrite? && (full || !s.n.ready)
    ensures Moves(s.n, Finished(Next(s, a, dsp), full).n, TurnsAway(a.cl, a.m), dsp)
  {
    hide Finished;
    var s1 := Onward(Next(s, a, dsp), full);
    var s2 := Onward(s1, full);
    var s3 := Onward(s2, full);
    if s.n.ready {
      var s4 := Onward(s3, full);
      var s5 := Onward(s4, full);
      var s6 := Onward(s5, full);
      FailedAlone(s6, full);
    } else {
      FailedAlone(s3, full);
    }
  }

  lemma FailedAlone(s: Grain, full: bool)
    requires Sound(s) && s.pc.SendFailed?
    ensures Finished(s, full).n == SetClient(s.n, s.pc.cl, s.n.cs[s.pc.cl].(state := IDLE)).(current := -1)
  {
    hide Finished;
    var s1 := Onward(s, full);
    var s2 := Onward(s1, full);
  }

  /** Each operation ends, and its assignments one after the other are the whole operation. */
  lemma Alone(s: Grain, a: Act, full: bool, dsp: Dsp)
    requires Invariant(s, dsp) && Enabled(s, a) && (a.StartOpen? || a.StartWrite? || a.StartRelease?)
    ensures Moves(s.n, Finished(Next(s, a, dsp), full).n, WholeOf(s.n, a, full), dsp)
  {
    hide InOrder, FindIn;
    Waits(View(s), dsp);
    match a {
      case StartOpen(_, _) => OpenAlone(s, a, full, dsp);
      case StartWrite(_, _) =>
        if s.n.ready && !full { AcceptedAlone(s, a, dsp); } else { TurnedAwayAlone(s, a, full, dsp); }
      case StartRelease(_) => ReleaseAlone(s, a, full, dsp);
    }
  }

  /** Where a reply is stored: in the client whose last request it answers, except between the
      writer's state assignment and its clearing of current_client. There the mailbox can only hold
      a released client's request, and the reply goes to the writer, which did not ask. */
  lemma Lands(s: Grain, dsp: Dsp)
    requires Invariant(s, dsp) && Enabled(s, Irq)
    ensures var c, stored := s.n.current, s.n.current != -1 && s.n.cs[s.n.current].state == REPLY_PENDING;
            && (stored && !s.pc.PendingSet? && !s.pc.SendFailed? ==>
                  s.n.inFlight == Flight(c, s.n.session[c], s.n.asked[c].0, s.n.asked[c].1))
            && (s.pc.PendingSet? || s.pc.SendFailed? ==>
                  stored && c == s.pc.cl && (s.n.inFlight.slot != c || s.n.inFlight.session != s.n.session[c]))
  {
    hide InOrder, FindIn;
    Waits(View(s), dsp);
  }

  /** A reply read outside the race answers the reader's own last request, unless a failed copy has
      overwritten it: then the read returns what that left. */
  lemma ReadIsOwn(s: Grain, cl: int, dsp: Dsp)
    requires Invariant(s, dsp) && Enabled(s, ReadReply(cl))
    ensures var a := s.n.asked[cl];
            s.n.cs[cl].msg == Unread(dsp, a, s.n.harm[cl])
  {
    hide FindIn;
    assert SlotOK(View(s), dsp, cl);
  }

  /** The race is real: from any such state the interrupt and the rest of the write leave the
      writer with the reply to a request it never made, its own being just sent. */
  lemma RaceSpoils(s: Grain, dsp: Dsp) returns (s': Grain)
    requires Invariant(s, dsp) && Enabled(s, Irq) && s.pc.PendingSet?
    ensures CanDo(s, [Irq, Go(false), Go(false), Go(false)], dsp)
    ensures s' == After(s, [Irq, Go(false), Go(false), Go(false)], dsp)
    ensures var cl, i := s.pc.cl, s.n.inFlight;
            && (i.slot != cl || i.session != s.n.session[cl]) && Enabled(s', ReadReply(cl))
            && s'.n.cs[cl].msg == Msg(s.pc.m.comp, dsp(i.id, i.msg).0, dsp(i.id, i.msg).1)
            && s'.n.inFlight.Flight? && s'.n.inFlight.slot == cl && s'.n.inFlight.id == s'.n.asked[cl].0 == s.n.sent
    ensures !Invariant(s', dsp)
  {
    hide InOrder, FindIn;
    Lands(s, dsp);
    var s1 := Next(s, Irq, dsp);
    var s2 := Next(s1, Go(false), dsp);
    var s3 := Next(s2, Go(false), dsp);
    s' := Next(s3, Go(false), dsp);
    assert CanDo(s', [], dsp) && After(s', [], dsp) == s';
    assert CanDo(s3, [Go(false)], dsp) && After(s3, [Go(false)], dsp) == s';
    assert [Go(false), Go(false)][1..] == [Go(false)];
    assert CanDo(s2, [Go(false), Go(false)], dsp) && After(s2, [Go(false), Go(false)], dsp) == s';
    assert [Go(false), Go(false), Go(false)][1..] == [Go(false), Go(false)];
    assert CanDo(s1, [Go(false), Go(false), Go(false)], dsp) && After(s1, [Go(false), Go(false), Go(false)], dsp) == s';
    assert [Irq, Go(false), Go(false), Go(false)][1..] == [Go(false), Go(false), Go(false)];
    if Invariant(s', dsp) { Waits(View(s'), dsp); }
  }

  ghost predicate CanDo(s: Grain, acts: seq<Act>, dsp: Dsp)
    decreases |acts|
  {
    Sound(s) && (acts == [] || (Enabled(s, acts[0]) && CanDo(Next(s, acts[0], dsp), acts[1..], dsp)))
  }

  ghost function After(s: Grain, acts: seq<Act>, dsp: Dsp): (r: Grain)
    requires CanDo(s, acts, dsp)
    ensures Sound(r)
    decreases |acts|
  {
    if acts == [] then s else After(Next(s, acts[0], dsp), acts[1..], dsp)
  }

  /** No interrupt of the run falls in the race. */
  ghost predicate Calm(s: Grain, acts: seq<Act>, dsp: Dsp)
    requires CanDo(s, acts, dsp)
    decreases |acts|
  {
    acts == [] || (!Racing(s, acts[0]) && Calm(Next(s, acts[0], dsp), acts[1..], dsp))
  }

  /** No client of the run is released while its request is with the DSP. */
  ghost predicate Patient(s: Grain, acts: seq<Act>, dsp: Dsp)
    requires CanDo(s, acts, dsp)
    decreases |acts|
  {
    acts == [] || ((acts[0].StartRelease? ==> s.n.cs[acts[0].cl].state != REPLY_PENDING)
      && Patient(Next(s, acts[0], dsp), acts[1..], dsp))
  }

  /** Every run that keeps out of the race stays in order, at whatever assignments it is interrupted. */
  lemma {:induction false} CalmRuns(s: Grain, acts: seq<Act>, dsp: Dsp)
    requires Invariant(s, dsp) && CanDo(s, acts, dsp) && Calm(s, acts, dsp)
    ensures Invariant(After(s, acts, dsp), dsp)
    decreases |acts|
  {
    hide Invariant;
    if acts != [] {
      Refines(s, acts[0], dsp);
      CalmRuns(Next(s, acts[0], dsp), acts[1..], dsp);
    }
  }

  /** Every unanswered request is waited for. */
  ghost predicate NoOrphan(s: Grain)
    requires Sound(s)
  {
    s.n.inFlight.Flight? ==> View(s).current != -1
  }

  lemma PatientStep(s: Grain, a: Act, dsp: Dsp)
    requires Invariant(s, dsp) && Enabled(s, a) && NoOrphan(s)
    requires a.StartRelease? ==> s.n.cs[a.cl].state != REPLY_PENDING
    ensures !Racing(s, a) && Invariant(Next(s, a, dsp), dsp) && NoOrphan(Next(s, a, dsp))
  {
    hide FindIn, InOrder, Stands, ViewClient;
    Refines(s, a, dsp);
    if a.StartRelease? { Waits(View(s), dsp); }
  }

  /** Delivery at assignment grain: when nobody is released while pending, no run meets the race,
      so every read returns the reply to the reader's own last request. */
  lemma {:induction false} PatientRuns(s: Grain, acts: seq<Act>, dsp: Dsp)
    requires Invariant(s, dsp) && NoOrphan(s) && CanDo(s, acts, dsp) && Patient(s, acts, dsp)
    ensures Calm(s, acts, dsp) && Invariant(After(s, acts, dsp), dsp) && NoOrphan(After(s, acts, dsp))
    decreases |acts|
  {
    hide Invariant, NoOrphan, Racing;
    if acts != [] {
      PatientStep(s, acts[0], dsp);
      PatientRuns(Next(s, acts[0], dsp), acts[1..], dsp);
    }
  }

  /** Exactly the race breaks the invariant. */
  lemma RaceExactly(s: Grain, a: Act, dsp: Dsp)
    requires Invariant(s, dsp) && Enabled(s, a)
    ensures Invariant(Next(s, a, dsp), dsp) <==> !Racing(s, a)
  {
    hide FindIn, InOrder;
    if Racing(s, a) {
      Lands(s, dsp);
    } else {
      Refines(s, a, dsp);
    }
  }

  ghost function Start(): Grain {
    Grain(Net(seq(MAX_CLIENTS, _ => Client(UNUSED, 0, Msg(0, 0, 0))), -1, true, NoFlight, 0,
              seq(MAX_CLIENTS, _ => -1), seq(MAX_CLIENTS, _ => (-1, Msg(0, 0, 0))), 0, seq(MAX_CLIENTS, _ => Whole)),
                Free)
  }

  ghost predicate Reached(s: Grain, dsp: Dsp) {
    exists acts :: CanDo(Start(), acts, dsp) && After(Start(), acts, dsp) == s
  }

  lemma {:induction false} OneMore(s: Grain, acts: seq<Act>, a: Act, dsp: Dsp)
    requires CanDo(s, acts, dsp) && Enabled(After(s, acts, dsp), a)
    ensures CanDo(s, acts + [a], dsp) && After(s, acts + [a], dsp) == Next(After(s, acts, dsp), a, dsp)
    decreases |acts|
  {
    hide Enabled, Next;
    if acts == [] {
      assert CanDo(Next(s, a, dsp), [], dsp) && [a][1..] == [] && ([] + [a])[0] == a;
    } else {
      assert (acts + [a])[1..] == acts[1..] + [a] && (acts + [a])[0] == acts[0];
      OneMore(Next(s, acts[0], dsp), acts[1..], a, dsp);
    }
  }

  lemma ReachedNext(s: Grain, a: Act, dsp: Dsp) returns (r: Grain)
    requires Reached(s, dsp) && Sound(s) && Enabled(s, a)
    ensures r == Next(s, a, dsp) && Reached(r, dsp) && Sound(r)
  {
    hide Enabled, Next, Start;
    var acts :| CanDo(Start(), acts, dsp) && After(Start(), acts, dsp) == s;
    OneMore(Start(), acts, a, dsp);
    r := Next(s, a, dsp);
  }

  lemma StartReached(dsp: Dsp)
    ensures Reached(Start(), dsp)
  {
    assert CanDo(Start(), [], dsp) && After(Start(), [], dsp) == Start();
  }

  /** A client opens and asks. */
  lemma Ask(dsp: Dsp) returns (s: Grain)
    ensures Reached(s, dsp) && Sound(s) && s.pc == Free && s.n.current == 0
    ensures s.n.inFlight == Flight(0, 0, 0, Msg(1, 2, 3))
    ensures s.n.cs == Start().n.cs[0 := Client(REPLY_PENDING, 7, Msg(1, 2, 3))]
  {
    hide Reached;
    StartReached(dsp);
    s := ReachedNext(Start(), StartOpen(0, 7), dsp);
    s := ReachedNext(s, Go(false), dsp);
    s := ReachedNext(s, StartWrite(0, Msg(1, 2, 3)), dsp);
    s := ReachedNext(s, Go(false), dsp);
    s := ReachedNext(s, Go(false), dsp);
    s := ReachedNext(s, Go(false), dsp);
    s := ReachedNext(s, Go(false), dsp);
    s := ReachedNext(s, Go(false), dsp);
  }

  /** It is released, and leaves the DSP working for nobody. */
  lemma AskAndLeave(dsp: Dsp) returns (s: Grain)
    ensures Reached(s, dsp) && Sound(s) && s.pc == Free && s.n.current == -1
    ensures s.n.inFlight == Flight(0, 0, 0, Msg(1, 2, 3))
    ensures s.n.cs == Start().n.cs[0 := Client(UNUSED, 0, Msg(1, 2, 3))]
  {
    hide Reached;
    s := Ask(dsp);
    s := ReachedNext(s, StartRelease(0), dsp);
    s := ReachedNext(s, Go(false), dsp);
    s := ReachedNext(s, Go(false), dsp);
    s := ReachedNext(s, Go(false), dsp);
  }

  /** The race happens: another client writes, and the late reply comes after its state is set. */
  lemma RaceReached(dsp: Dsp) returns (s: Grain)
    ensures Reached(s, dsp) && Sound(s) && Enabled(s, Irq) && Racing(s, Irq)
  {
    hide Reached;
    s := AskAndLeave(dsp);
    s := ReachedNext(s, StartOpen(1, 8), dsp);
    s := ReachedNext(s, Go(false), dsp);
    s := ReachedNext(s, StartWrite(1, Msg(4, 5, 6)), dsp);
    s := ReachedNext(s, Go(false), dsp);
    s := ReachedNext(s, Go(false), dsp);
  }

  lemma AllWhole(cl: int)
    requires 0 <= cl < MAX_CLIENTS
    ensures Start().n.harm[cl] == Whole
  {
  }

  lemma StartInvariant(dsp: Dsp)
    ensures Invariant(Start(), dsp) && NoOrphan(Start())
  {
  }

  /** No write of client `cl` fails in the copying. */
  predicate NoFailure(acts: seq<Act>, cl: int) {
    forall a :: a in acts && a.FailWrite? ==> a.cl != cl
  }

  /** Only a failed write harms a client's message. */
  lemma {:induction false} HarmlessRuns(s: Grain, acts: seq<Act>, cl: int, dsp: Dsp)
    requires CanDo(s, acts, dsp) && 0 <= cl < MAX_CLIENTS && s.n.harm[cl] == Whole && NoFailure(acts, cl)
    ensures After(s, acts, dsp).n.harm[cl] == Whole
    decreases |acts|
  {
    if acts != [] {
      assert acts[0] in acts;
      HarmlessRuns(Next(s, acts[0], dsp), acts[1..], cl, dsp);
    }
  }

  /** From the start: a reply that any read takes, in any run that releases nobody who waits, is the
      DSP's answer to that client's own last request iff no write of it has failed in the copying
      since that request was sent, or the failed copy happened to leave the very same words. */
  lemma Delivery(acts: seq<Act>, cl: int, dsp: Dsp)
    requires CanDo(Start(), acts, dsp) && Patient(Start(), acts, dsp)
    requires Enabled(After(Start(), acts, dsp), ReadReply(cl))
    ensures var n := After(Start(), acts, dsp).n;
            && (n.cs[cl].msg == ReplyTo(dsp, n.asked[cl].0, n.asked[cl].1) <==>
                  n.harm[cl] == Whole || n.harm[cl] == Left(ReplyTo(dsp, n.asked[cl].0, n.asked[cl].1)))
            && (NoFailure(acts, cl) ==> n.harm[cl] == Whole)
  {
    hide FindIn, InOrder, Stands, View, CanDo, After, Patient, Start;
    StartInvariant(dsp);
    PatientRuns(Start(), acts, dsp);
    ReadIsOwn(After(Start(), acts, dsp), cl, dsp);
    if NoFailure(acts, cl) {
      AllWhole(cl);
      HarmlessRuns(Start(), acts, cl, dsp);
    }
  }
}
