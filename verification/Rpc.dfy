/** The RPC driver: up to 16 clients share one mailbox. Writes and releases hold a mutex; each
    operation, and each reply interrupt, is one step here. */
module Rpc {
  import opened Machine

  const MAX_CLIENTS: int := 16

  /** dsp_msg_t: the request word and two words that carry arguments out and return values back. */
  datatype Msg = Msg(comp: int, d0: int, d1: int)

  datatype State = UNUSED | IDLE | REPLY_PENDING | REPLY_AVAIL

  datatype Client = Client(state: State, filep: int, msg: Msg)

  /** sizeof(dsp_msg_t), and the size of the debug and test words. */
  const MSG_BYTES: int := 12
  const WORD_BYTES: int := 4

  datatype Status = Done | EAGAIN | EBADF | EFAULT | EINVAL | EMFILE | EIO | ENODEV

  /** A request the DSP has not answered yet: which slot sent it in which session, and its number. */
  datatype Flight = NoFlight | Flight(slot: int, session: int, id: int, msg: Msg)

  /** Whether a client's message is whole, or what a failed copy from user space left in it. */
  datatype Harm = Whole | Left(msg: Msg)

  datatype Reading = NotFound | StillPending | Nothing | Fault | BadSize | Reply(msg: Msg) | Debug(val: int)

  /** The message with which the DSP answers request `id`. */
  ghost function ReplyTo(answer: (int, Msg) -> (int, int), id: int, m: Msg): Msg {
    Msg(m.comp, answer(id, m).0, answer(id, m).1)
  }

  /** What lies in the message of a client whose request `a` was answered. */
  ghost function Unread(answer: (int, Msg) -> (int, int), a: (int, Msg), h: Harm): Msg {
    if h.Whole? then ReplyTo(answer, a.0, a.1) else h.msg
  }

  /** The first slot in use by file `f`, or -1. */
  ghost function FindIn(s: seq<Client>, f: int): (i: int)
    ensures -1 <= i < |s|
    ensures i != -1 ==>
      s[i].filep == f && s[i].state != UNUSED && forall j :: 0 <= j < i ==> s[j].filep != f || s[j].state == UNUSED
    ensures i == -1 ==> forall j :: 0 <= j < |s| ==> s[j].filep != f || s[j].state == UNUSED
  {
    if s == [] then -1
    else if s[0].filep == f && s[0].state != UNUSED then 0
    else
      var k := FindIn(s[1..], f);
      assert forall j :: 1 <= j < |s| ==> s[j] == s[1..][j - 1];
      if k == -1 then -1 else k + 1
  }

  /** The driver's variables and the history that matters, as one value. */
  datatype Net = Net(cs: seq<Client>, current: int, ready: bool, inFlight: Flight, sent: int, session: seq<int>,
    asked: seq<(int, Msg)>, sessions: int,
                     harm: seq<Harm>)

  /** A client waits exactly if it is the current one; a reply it may read answers its own last
      request, unless a failed copy has overwritten it since. */
  ghost predicate SlotOK(n: Net, answer: (int, Msg) -> (int, int), i: int)
    requires 0 <= i < |n.cs| && |n.session| == |n.cs| && |n.asked| == |n.cs| && |n.harm| == |n.cs|
  {
    var c, a := n.cs[i], n.asked[i];
    && (c.state == REPLY_PENDING <==> i == n.current)
    && (c.state == REPLY_PENDING ==> c.msg == a.1 && n.harm[i] == Whole)
    && (c.state == REPLY_AVAIL ==> c.msg == Unread(answer, a, n.harm[i]))
    && (c.state != UNUSED ==> c.filep != 0) && n.session[i] < n.sessions && a.0 < n.sent
  }

  ghost predicate OneSlotEach(cs: seq<Client>) {
    forall i, j :: 0 <= i < j < |cs| && cs[i].state != UNUSED && cs[j].state != UNUSED ==> cs[i].filep != cs[j].filep
  }

  /** The mailbox is busy exactly while a request is unanswered. That request is the current
      client's last one, or its sender has been released. */
  ghost predicate MailboxOK(n: Net)
    requires |n.session| == |n.cs| && |n.asked| == |n.cs| && -1 <= n.current < |n.cs|
  {
    && (n.ready <==> n.inFlight == NoFlight)
    && (n.inFlight.Flight? ==>
       0 <= n.inFlight.slot < |n.cs| && 0 <= n.inFlight.id < n.sent && n.inFlight.session < n.sessions)
    && (n.current != -1 ==>
       n.inFlight == Flight(n.current, n.session[n.current], n.asked[n.current].0, n.asked[n.current].1))
    && (n.current == -1 && n.inFlight.Flight? ==>
       n.session[n.inFlight.slot] != n.inFlight.session || n.cs[n.inFlight.slot].state == UNUSED)
  }

  ghost predicate InOrder(n: Net, answer: (int, Msg) -> (int, int)) {
    && |n.cs| == MAX_CLIENTS && |n.session| == MAX_CLIENTS && |n.asked| == MAX_CLIENTS && |n.harm| == MAX_CLIENTS
    && -1 <= n.current < MAX_CLIENTS && n.sent >= 0
    && (forall i :: 0 <= i < MAX_CLIENTS ==> SlotOK(n, answer, i))
    && OneSlotEach(n.cs) && MailboxOK(n)
  }

  /** A request is accepted: its sender waits, and the mailbox is busy with it. */
  lemma Accepted(n: Net, n': Net, answer: (int, Msg) -> (int, int), cl: int, m: Msg)
    requires InOrder(n, answer) && n.current == -1 && n.ready && 0 <= cl < MAX_CLIENTS && n.cs[cl].state != UNUSED
    requires n' == n.(cs := n.cs[cl := Client(REPLY_PENDING, n.cs[cl].filep, m)], current := cl, ready := false,
                      inFlight := Flight(cl, n.session[cl], n.sent, m), sent := n.sent + 1,
                        asked := n.asked[cl := (n.sent, m)],
                      harm := n.harm[cl := Whole])
    ensures InOrder(n', answer)
  {
    assert SlotOK(n, answer, cl);
    forall i | 0 <= i < MAX_CLIENTS
      ensures SlotOK(n', answer, i)
    {
      assert SlotOK(n, answer, i);
    }
  }

  /** A copy from user space fails: whatever it left is now the client's message, and nothing else changes. */
  lemma Faulted(n: Net, n': Net, answer: (int, Msg) -> (int, int), cl: int, left: Msg)
    requires InOrder(n, answer) && n.current == -1 && 0 <= cl < MAX_CLIENTS && n.cs[cl].state != UNUSED
    requires n' == n.(cs := n.cs[cl := n.cs[cl].(msg := left)], harm := n.harm[cl := Left(left)])
    ensures InOrder(n', answer)
  {
    forall i | 0 <= i < MAX_CLIENTS
      ensures SlotOK(n', answer, i)
    {
      assert SlotOK(n, answer, i);
    }
  }

  /** An unused slot is taken, in a session of its own. */
  lemma Opened(n: Net, n': Net, answer: (int, Msg) -> (int, int), cl: int, f: int)
    requires InOrder(n, answer) && 0 <= cl < MAX_CLIENTS && n.cs[cl].state == UNUSED && f != 0 && FindIn(n.cs, f) == -1
    requires n'
      == n.(cs := n.cs[cl := n.cs[cl].(filep := f, state := IDLE)], session := n.session[cl := n.sessions],
      sessions := n.sessions + 1)
    ensures InOrder(n', answer) && FindIn(n'.cs, f) == cl
  {
    hide FindIn;
    assert SlotOK(n, answer, cl);
    forall i | 0 <= i < MAX_CLIENTS
      ensures SlotOK(n', answer, i)
    {
      assert SlotOK(n, answer, i);
    }
    FoundAt(n'.cs, f, cl);
  }

  /** A slot becomes unused. If its request is unanswered, nobody waits for the answer any more. */
  lemma Released(n: Net, n': Net, answer: (int, Msg) -> (int, int), cl: int)
    requires InOrder(n, answer) && 0 <= cl < MAX_CLIENTS && n.cs[cl].state != UNUSED
    requires n'
      == n.(cs := n.cs[cl := n.cs[cl].(filep := 0, state := UNUSED)],
      current := if n.current == cl then -1 else n.current)
    ensures InOrder(n', answer) && forall f :: f == n.cs[cl].filep ==> FindIn(n'.cs, f) == -1
  {
    hide FindIn;
    assert SlotOK(n, answer, cl);
    forall i | 0 <= i < MAX_CLIENTS
      ensures SlotOK(n', answer, i)
    {
      assert SlotOK(n, answer, i);
    }
    NoSlot(n'.cs, n.cs[cl].filep);
  }

  lemma FoundAt(cs: seq<Client>, f: int, cl: int)
    requires OneSlotEach(cs) && 0 <= cl < |cs| && cs[cl].filep == f && cs[cl].state != UNUSED
    ensures FindIn(cs, f) == cl
  {
    hide FindIn;
    var i := FindIn(cs, f);
  }

  lemma NoSlot(cs: seq<Client>, f: int)
    requires forall i :: 0 <= i < |cs| ==> cs[i].filep != f || cs[i].state == UNUSED
    ensures FindIn(cs, f) == -1
  {
    hide FindIn;
    var i := FindIn(cs, f);
  }

  /** A reply is read: the client is idle again. */
  lemma PickedUp(n: Net, n': Net, answer: (int, Msg) -> (int, int), cl: int)
    requires InOrder(n, answer) && 0 <= cl < MAX_CLIENTS && n.cs[cl].state == REPLY_AVAIL
    requires n' == n.(cs := n.cs[cl := n.cs[cl].(state := IDLE)])
    ensures InOrder(n', answer) && n.cs[cl].msg == Unread(answer, n.asked[cl], n.harm[cl])
  {
    assert SlotOK(n, answer, cl);
    forall i | 0 <= i < MAX_CLIENTS
      ensures SlotOK(n', answer, i)
    {
      assert SlotOK(n, answer, i);
    }
  }

  /** What a client's state says about it. */
  lemma StateTells(n: Net, answer: (int, Msg) -> (int, int), cl: int)
    requires InOrder(n, answer) && 0 <= cl < MAX_CLIENTS
    ensures (n.cs[cl].state == REPLY_PENDING <==> cl == n.current)
    ensures n.current != -1 ==>
      n.inFlight == Flight(n.current, n.session[n.current], n.asked[n.current].0, n.asked[n.current].1)
    ensures n.current == -1 && n.inFlight.Flight? ==>
              0 <= n.inFlight.slot < MAX_CLIENTS
                && (n.session[n.inFlight.slot] != n.inFlight.session || n.cs[n.inFlight.slot].state == UNUSED)
  {
    assert SlotOK(n, answer, cl);
  }

  /** The answer arrives for the client that waits for it. */
  lemma Replied(n: Net, n': Net, answer: (int, Msg) -> (int, int), r1: int, r2: int)
    requires InOrder(n, answer) && n.inFlight.Flight? && (r1, r2) == answer(n.inFlight.id, n.inFlight.msg)
    requires var cl := n.current;
             n' == n.(cs := if cl == -1 then n.cs
               else n.cs[cl := Client(REPLY_AVAIL, n.cs[cl].filep, Msg(n.cs[cl].msg.comp, r1, r2))],
                      current := -1, ready := true, inFlight := NoFlight)
    ensures InOrder(n', answer)
  {
    if n.current != -1 { assert SlotOK(n, answer, n.current); }
    forall i | 0 <= i < MAX_CLIENTS
      ensures SlotOK(n', answer, i)
    {
      assert SlotOK(n, answer, i);
    }
  }

  /** A request is turned away by the mailbox: its sender is idle, and has lost what it had not read. */
  lemma TurnedAway(n: Net, n': Net, answer: (int, Msg) -> (int, int), cl: int, m: Msg)
    requires InOrder(n, answer) && n.current == -1 && 0 <= cl < MAX_CLIENTS && n.cs[cl].state != UNUSED
    requires n' == n.(cs := n.cs[cl := Client(IDLE, n.cs[cl].filep, m)])
    ensures InOrder(n', answer)
  {
    forall i | 0 <= i < MAX_CLIENTS
      ensures SlotOK(n', answer, i)
    {
      assert SlotOK(n, answer, i);
    }
  }

  lemma InOrderShape(n: Net, answer: (int, Msg) -> (int, int))
    requires InOrder(n, answer)
    ensures |n.harm| == MAX_CLIENTS && |n.session| == MAX_CLIENTS && |n.asked| == MAX_CLIENTS && |n.cs| == MAX_CLIENTS
    ensures n.ready <==> n.inFlight == NoFlight
    ensures n.current != -1 ==> !n.ready
    ensures -1 <= n.current < MAX_CLIENTS
  {
  }

  class Driver {
    const clients: array<Client>
    /** current_client; -1 is the null pointer. */
    var current: int
    /** at_b_ready_to_send */
    var ready: bool
    var msgSerial: int

    /** The DSP: its two return words for the n-th message sent. */
    ghost const answer: (int, Msg) -> (int, int)
    ghost var inFlight: Flight
    ghost var sent: int
    /** Per slot: the session it is in, and number and text of its last accepted request. */
    ghost var session: seq<int>
    ghost var asked: seq<(int, Msg)>
    ghost var sessions: int
    ghost var harm: seq<Harm>

    ghost function Snapshot(): Net
      reads this, clients
    {
      Net(clients[..], current, ready, inFlight, sent, session, asked, sessions, harm)
    }

    ghost predicate Valid()
      reads this, clients
    {
      clients.Length == MAX_CLIENTS && 0 <= msgSerial < WORD && InOrder(Snapshot(), answer)
    }

    /** The slot that file `f` has open, or -1. */
    ghost function Slot(f: int): (i: int)
      requires clients.Length == MAX_CLIENTS
      reads this, clients
      ensures -1 <= i < MAX_CLIENTS && (i != -1 ==> clients[i].filep == f && clients[i].state != UNUSED)
    {
      FindIn(clients[..], f)
    }

    constructor (dsp: (int, Msg) -> (int, int))
      ensures Valid() && fresh(clients) && forall i :: 0 <= i < MAX_CLIENTS ==> clients[i].state == UNUSED
      ensures answer == dsp && inFlight == NoFlight && current == -1 && ready && sent == 0
    {
      clients := new Client[MAX_CLIENTS](_ => Client(UNUSED, 0, Msg(0, 0, 0)));
      current := -1;
      ready := true;
      msgSerial := 0;
      answer := dsp;
      inFlight := NoFlight;
      sent := 0;
      session := seq(MAX_CLIENTS, _ => -1);
      asked := seq(MAX_CLIENTS, _ => (-1, Msg(0, 0, 0)));
      sessions := 0;
      harm := seq(MAX_CLIENTS, _ => Whole);
    }

    /** loc_find_client_by_filep; -1 is the null pointer. */
    method Find(f: int) returns (i: int)
      requires clients.Length == MAX_CLIENTS
      ensures i == Slot(f)
    {
      i := 0;
      while i < MAX_CLIENTS
        invariant 0 <= i <= MAX_CLIENTS
        invariant forall j :: 0 <= j < i ==> clients[j].filep != f || clients[j].state == UNUSED
      {
        if clients[i].filep == f {
          if clients[i].state != UNUSED { return; }
        }
        i := i + 1;
      }
      i := -1;
    }

    /** fops__open: the first unused slot, in a new session. */
    method Open(f: int, enabled: bool, minorOk: bool) returns (ret: Status, ghost cl: int)
      requires Valid() && f != 0
      modifies this`session, this`sessions, clients
      ensures Valid()
      ensures ret == EAGAIN <==> !enabled
      ensures ret == ENODEV <==> enabled && !minorOk
      ensures ret == EIO <==> enabled && minorOk && old(Slot(f)) != -1
      ensures ret == EMFILE <==>
        enabled && minorOk && old(Slot(f)) == -1 && forall i :: 0 <= i < MAX_CLIENTS ==> old(clients[i]).state != UNUSED
      ensures ret != EBADF && ret != EFAULT && ret != EINVAL
      ensures ret != Done ==> clients[..] == old(clients[..]) && session == old(session) && sessions == old(sessions)
      ensures ret == Done ==>
                && 0 <= cl < MAX_CLIENTS && old(clients[..])[cl].state == UNUSED && clients[cl].state == IDLE
                && clients[cl].filep == f && Slot(f) == cl
                && clients[..] == old(clients[..])[cl := old(clients[..])[cl].(filep := f, state := IDLE)]
                && (forall j :: 0 <= j < cl ==> old(clients[..])[j].state != UNUSED)
                && session == old(session)[cl := old(sessions)] && sessions == old(sessions) + 1
    {
      hide InOrder, FindIn;
      InOrderShape(Snapshot(), answer);
      cl := -1;
      if !enabled { return EAGAIN, cl; }
      if !minorOk { return ENODEV, cl; }
      var found := Find(f);
      cl := found;
      if found == -1 {
        var i := 0;
        while i < MAX_CLIENTS && clients[i].state != UNUSED
          invariant 0 <= i <= MAX_CLIENTS && forall j :: 0 <= j < i ==> clients[j].state != UNUSED
        {
          i := i + 1;
        }
        if i != MAX_CLIENTS {
          clients[i] := clients[i].(filep := f, state := IDLE);
          session := session[i := sessions];
          sessions := sessions + 1;
          cl := i;
          ret := Done;
          Opened(old(Snapshot()), Snapshot(), answer, cl, f);
        } else {
          ret := EMFILE;
        }
      } else {
        ret := EIO;
      }
    }

    /** fops__release: the slot becomes unused at once, even while its request is with the DSP. */
    method Release(f: int)
      requires Valid() && f != 0
      modifies this`current, clients
      ensures Valid() && Slot(f) == -1
      ensures var cl := old(Slot(f));
              if cl == -1 then clients[..] == old(clients[..]) && current == old(current)
              else && clients[..] == old(clients[..])[cl := old(clients[..])[cl].(filep := 0, state := UNUSED)]
                   && clients[cl].state == UNUSED
                   && current == if old(current) == cl then -1 else old(current)
    {
      hide InOrder, FindIn;
      InOrderShape(Snapshot(), answer);
      var cl := Find(f);
      if cl != -1 {
        clients[cl] := clients[cl].(state := UNUSED);
        if cl == current { current := -1; }
        clients[cl] := clients[cl].(filep := 0);
        Released(old(Snapshot()), Snapshot(), answer, cl);
      }
    }

    /** mlb_send_to_dsp for a client. */
    method Send(cl: int, m: Msg, fifoFull: bool) returns (ok: bool)
      requires 0 <= cl < |session| && (ready <==> inFlight == NoFlight)
      modifies this`ready, this`msgSerial, this`inFlight, this`sent
      ensures ok <==> old(ready) && !fifoFull
      ensures ok ==> !ready && inFlight == Flight(cl, session[cl], old(sent), m) && sent == old(sent) + 1
      ensures !ok ==> ready == old(ready) && inFlight == old(inFlight) && sent == old(sent)
      ensures msgSerial == if old(ready) then (old(msgSerial) + 1) % WORD else old(msgSerial)
    {
      if ready {
        ready := false;
        msgSerial := (msgSerial + 1) % WORD;
        if !fifoFull {
          inFlight, sent := Flight(cl, session[cl], sent, m), sent + 1;
          ok := true;
        } else {
          ready := true;
          ok := false;
        }
      } else {
        ok := false;
      }
    }

    /** The part of fops__write after the copying: the client waits if the mailbox takes its message,
        and is idle otherwise. */
    method Submit(cl: int, m: Msg, fifoFull: bool) returns (ret: Status)
      requires Valid() && 0 <= cl < MAX_CLIENTS && current == -1 && clients[cl].state != UNUSED
      modifies this, clients
      ensures Valid() && session == old(session) && sessions == old(sessions) && (ret == Done || ret == EAGAIN)
      ensures ret == Done <==> old(ready) && !fifoFull
      ensures msgSerial == if old(ready) then (old(msgSerial) + 1) % WORD else old(msgSerial)
      ensures ret == Done ==>
                && current == cl
                && clients[..] == old(clients[..])[cl := Client(REPLY_PENDING, old(clients[cl]).filep, m)] && !ready
                && inFlight == Flight(cl, session[cl], old(sent), m) && sent == old(sent) + 1
                && asked == old(asked)[cl := (old(sent), m)] && harm == old(harm)[cl := Whole]
      ensures ret != Done ==>
                && clients[..] == old(clients[..])[cl := Client(IDLE, old(clients[cl]).filep, m)] && asked == old(asked)
                && harm == old(harm)
                && inFlight == old(inFlight) && sent == old(sent) && ready == old(ready) && current == -1
    {
      hide InOrder, FindIn;
      InOrderShape(Snapshot(), answer);
      clients[cl] := clients[cl].(msg := m);
      current := cl;
      clients[cl] := clients[cl].(state := REPLY_PENDING);
      var ok := Send(cl, m, fifoFull);
      if ok {
        asked := asked[cl := (old(sent), m)];
        harm := harm[cl := Whole];
        ret := Done;
        Accepted(old(Snapshot()), Snapshot(), answer, cl, m);
      } else {
        current := -1;
        clients[cl] := clients[cl].(state := IDLE);
        ret := EAGAIN;
        TurnedAway(old(Snapshot()), Snapshot(), answer, cl, m);
      }
    }

    /** fops__write of `count` bytes. A message is accepted exactly if nobody else waits, the file is
        open, the message could be copied and the mailbox is ready; the sender then waits. If it could
        not be copied, `m` is what the copy left in the client's message. */
    method Write(f: int, count: int, m: Msg, copied: bool, fifoFull: bool) returns (ret: Status)
      requires Valid() && f != 0 && count != WORD_BYTES
      modifies this, clients
      ensures Valid() && Slot(f) == old(Slot(f)) && session == old(session) && sessions == old(sessions)
      ensures sent == if ret == Done then old(sent) + 1 else old(sent)
      ensures msgSerial ==
        if count == MSG_BYTES && old(current) == -1 && old(Slot(f)) != -1 && copied && old(ready)
        then (old(msgSerial) + 1) % WORD else old(msgSerial)
      ensures ret == EINVAL <==> count != MSG_BYTES
      ensures ret == Done <==>
        count == MSG_BYTES && old(current) == -1 && old(Slot(f)) != -1 && copied && old(ready) && !fifoFull
      ensures ret == EBADF <==> count == MSG_BYTES && old(current) == -1 && old(Slot(f)) == -1
      ensures ret == EFAULT <==> count == MSG_BYTES && old(current) == -1 && old(Slot(f)) != -1 && !copied
      ensures ret == Done || ret == EAGAIN || ret == EBADF || ret == EFAULT || ret == EINVAL
      ensures ret == Done ==> var cl := old(Slot(f));
                              && current == cl && clients[..] == old(clients[..])[cl := Client(REPLY_PENDING, f, m)]
                              && !ready
                              && inFlight == Flight(cl, session[cl], old(sent), m)
                              && asked == old(asked)[cl := (old(sent), m)]
                              && harm == old(harm)[cl := Whole]
      ensures ret != Done ==>
        asked == old(asked) && inFlight == old(inFlight) && ready == old(ready) && current == old(current)
      ensures ret != Done ==> var cl := old(Slot(f));
        clients[..] ==
          if ret == EAGAIN && old(current) == -1 then old(clients[..])[cl := Client(IDLE, f, m)]
          else if ret == EFAULT then old(clients[..])[cl := old(clients[..])[cl].(msg := m)]
          else old(clients[..])
      ensures ret != Done ==> harm == if ret == EFAULT then old(harm)[old(Slot(f)) := Left(m)] else old(harm)
    {
      hide InOrder, FindIn;
      InOrderShape(Snapshot(), answer);
      if count != MSG_BYTES {
        ret := EINVAL;
      } else if current == -1 {
        var cl := Find(f);
        if cl != -1 {
          if copied {
            ret := Submit(cl, m, fifoFull);
          } else {
            clients[cl] := clients[cl].(msg := m);
            harm := harm[cl := Left(m)];
            ret := EFAULT;
            Faulted(old(Snapshot()), Snapshot(), answer, cl, m);
          }
        } else {
          ret := EBADF;
        }
      } else {
        ret := EAGAIN;
      }
      SameSlot(old(clients[..]), clients[..], f);
    }

    /** fops__read of `count` bytes; `copied` says whether they could be copied out. A reply is read
        once. It is the DSP's answer to the last request accepted from this file, unless a write
        that could not be copied has overwritten it. A read of one word gives the debug register. */
    method Read(f: int, count: int, debug: int, copied: bool) returns (r: Reading)
      requires Valid() && f != 0
      modifies clients
      ensures Valid() && Slot(f) == old(Slot(f))
      ensures count != MSG_BYTES ==> clients[..] == old(clients[..])
      ensures count == WORD_BYTES ==> r == if copied then Debug(debug) else Fault
      ensures r == BadSize <==> count != MSG_BYTES && count != WORD_BYTES
      ensures count == MSG_BYTES ==> var cl := Slot(f);
        if cl == -1 then r == NotFound && clients[..] == old(clients[..])
        else
          && r != NotFound && !r.Debug? && (r == StillPending <==> cl == current)
          && (r.Reply? <==> old(clients[..])[cl].state == REPLY_AVAIL && copied)
          && (r == Fault <==> old(clients[..])[cl].state == REPLY_AVAIL && !copied)
          && (r.Reply? ==> r.msg == Unread(answer, asked[cl], harm[cl]))
          && (r.Reply? ==> clients[..] == old(clients[..])[cl := old(clients[..])[cl].(state := IDLE)])
          && (!r.Reply? ==> clients[..] == old(clients[..]))
    {
      hide InOrder, FindIn;
      InOrderShape(Snapshot(), answer);
      if count == WORD_BYTES { return if copied then Debug(debug) else Fault; }
      if count != MSG_BYTES { return BadSize; }
      var cl := Find(f);
      if cl != -1 {
        StateTells(Snapshot(), answer, cl);
        if clients[cl].state == REPLY_AVAIL {
          if copied {
            r := Reply(clients[cl].msg);
            clients[cl] := clients[cl].(state := IDLE);
            PickedUp(old(Snapshot()), Snapshot(), answer, cl);
          } else {
            r := Fault;
          }
        } else if clients[cl].state == REPLY_PENDING {
          r := StillPending;
        } else {
          r := Nothing;
        }
      } else {
        r := NotFound;
      }
      SameSlot(old(clients[..]), clients[..], f);
    }

    /** The reply interrupt: dev_handle_reply, then ready again. The reply goes to the client that
        sent the request, if it has not been released since; otherwise to nobody, even if the
        slot is in use again. */
    method Interrupt(ret1: int, ret2: int)
      requires Valid() && inFlight.Flight? && (ret1, ret2) == answer(inFlight.id, inFlight.msg)
      modifies this`current, this`ready, this`inFlight, clients
      ensures Valid() && ready && inFlight == NoFlight && current == -1
      ensures var i := old(inFlight).slot;
              if session[i] == old(inFlight).session && old(clients[..])[i].state != UNUSED
              then && old(current) == i && asked[i] == (old(inFlight).id, old(inFlight).msg)
                   && clients[..]
                      == old(clients[..])[i := Client(REPLY_AVAIL, old(clients[..])[i].filep,
                      Msg(old(clients[..])[i].msg.comp, ret1, ret2))]
              else clients[..] == old(clients[..])
    {
      hide InOrder, FindIn;
      InOrderShape(Snapshot(), answer);
      StateTells(Snapshot(), answer, if current == -1 then 0 else current);
      if current != -1 {
        if clients[current].state == REPLY_PENDING {
          clients[current] :=
            clients[current].(msg := clients[current].msg.(d0 := ret1, d1 := ret2), state := REPLY_AVAIL);
          current := -1;
        }
      }
      ready := true;
      inFlight := NoFlight;
      Replied(old(Snapshot()), Snapshot(), answer, ret1, ret2);
    }
  }

  /** Changes that keep file and openness of each slot keep the file's slot. */
  lemma SameSlot(s: seq<Client>, t: seq<Client>, f: int)
    requires |s| == |t|
    requires forall i :: 0 <= i < |s| ==> s[i].filep == t[i].filep && (s[i].state == UNUSED <==> t[i].state == UNUSED)
    ensures FindIn(t, f) == FindIn(s, f)
  {
  }
}
