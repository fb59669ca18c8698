/** Every run of the RPC driver, seen from outside: what each operation does and returns is a
    function of what happened before. */
module RpcRuns {
  import opened Rpc

  /** What happened, in order. Dropped is a write the mailbox turned away after the client's message
      was overwritten; Spoiled is one that could not be copied, and what the copy left in that
      message; the id of a message is its number among those the DSP received. */
  datatype Event =
    | Opened(f: int)
    | Closed(f: int)
    | Sent(f: int, id: int, msg: Msg)
    | Dropped(f: int)
    | Spoiled(f: int, left: Msg)
    | Refused(f: int, ret: Status)
    | Looked(f: int, r: Reading)
    | Answered(id: int)
    | NoReply

  datatype Standing = Shut | Quiet | Asked(id: int, msg: Msg) | Harmed(left: Msg)

  /** Where file `f` stands after the event `e`, having stood at `s` before. */
  function Moved(s: Standing, e: Event, f: int): Standing {
    match e
    case Opened(g) => if g == f then Quiet else s
    case Closed(g) => if g == f then Shut else s
    case Sent(g, id, m) => if g == f then Asked(id, m) else s
    case Dropped(g) => if g == f then Quiet else s
    case Spoiled(g, left) => if g == f && (s.Asked? || s.Harmed?) then Harmed(left) else s
    case Looked(g, r) => if g == f && r.Reply? then Quiet else s
    case _ => s
  }

  /** Where file `f` stands after the history `t`. */
  ghost function Stands(t: seq<Event>, f: int): Standing {
    if t == [] then Shut else Moved(Stands(t[..|t| - 1], f), t[|t| - 1], f)
  }

  /** Requests the DSP has received. */
  ghost function Count(t: seq<Event>): int {
    if t == [] then 0 else Count(t[..|t| - 1]) + if t[|t| - 1].Sent? then 1 else 0
  }

  /** The DSP has not answered the last request yet. */
  ghost predicate Busy(t: seq<Event>) {
    Count(t) > 0 && Answered(Count(t) - 1) !in t
  }

  /** File `f` waits for its answer. */
  ghost predicate Waits(t: seq<Event>, f: int) {
    Stands(t, f).Asked? && Answered(Stands(t, f).id) !in t
  }

  /** There is no room for another file. */
  ghost predicate Full(t: seq<Event>) {
    exists fs: seq<int> :: |fs| == MAX_CLIENTS && OpenFiles(t, fs)
  }

  /** Different files, all of them open. */
  ghost predicate OpenFiles(t: seq<Event>, fs: seq<int>) {
    && (forall i :: 0 <= i < |fs| ==> fs[i] != 0 && Stands(t, fs[i]) != Shut)
    && (forall i, j :: 0 <= i < j < |fs| ==> fs[i] != fs[j])
  }

  /** What a read of `f` returns after the history `t`: the reply to the last request sent from this
      opening of the file, once, as soon as the DSP has answered it; or what a failed copy left of it. */
  ghost function Expected(t: seq<Event>, dsp: (int, Msg) -> (int, int), f: int): Reading {
    match Stands(t, f)
    case Shut => NotFound
    case Quiet => Nothing
    case Asked(id, m) => if Answered(id) in t then Reply(ReplyTo(dsp, id, m)) else StillPending
    case Harmed(left) => Reply(left)
  }

  datatype Step =
    | OpenFile(f: int, enabled: bool, minorOk: bool)
    | CloseFile(f: int)
    | WriteFile(f: int, m: Msg, copied: bool, fifoFull: bool)
    | ReadFile(f: int, copied: bool)
    | ReplyArrives

  predicate NamesFile(s: Step) {
    s.ReplyArrives? || s.f != 0
  }

  /** After the history `t`, step `s` leads to exactly the event `e`. */
  ghost predicate Follows(t: seq<Event>, s: Step, e: Event, dsp: (int, Msg) -> (int, int)) {
    match s
    case OpenFile(f, enabled, minorOk) =>
      e == (if !enabled then Refused(f, EAGAIN)
            else if !minorOk then Refused(f, ENODEV)
            else if Stands(t, f) != Shut then Refused(f, EIO)
            else if Full(t) then Refused(f, EMFILE)
            else Opened(f))
    case CloseFile(f) => e == Closed(f)
    case WriteFile(f, m, copied, fifoFull) =>
      e == (if exists g :: g != 0 && Waits(t, g) then Refused(f, EAGAIN)
            else if Stands(t, f) == Shut then Refused(f, EBADF)
            else if !copied then Spoiled(f, m)
            else if Busy(t) || fifoFull then Dropped(f)
            else Sent(f, Count(t), m))
    case ReadFile(f, copied) =>
      e == Looked(f, if Expected(t, dsp, f).Reply? && !copied then Fault else Expected(t, dsp, f))
    case ReplyArrives => e == if Busy(t) then Answered(Count(t) - 1) else NoReply
  }

  // ----- the driver and the history

  /** Slot and history agree about file `f`. */
  ghost predicate Agrees(t: seq<Event>, n: Net, f: int)
    requires |n.cs| == |n.asked| == |n.harm|
  {
    var i := FindIn(n.cs, f);
    match Stands(t, f)
    case Shut => i == -1
    case Quiet => i != -1 && n.cs[i].state == IDLE
    case Asked(id, m) =>
      && i != -1 && n.asked[i] == (id, m) && n.harm[i] == Whole
      && n.cs[i].state == if Answered(id) in t then REPLY_AVAIL else REPLY_PENDING
    case Harmed(left) => i != -1 && n.cs[i].state == REPLY_AVAIL && n.harm[i] == Left(left)
  }

  /** The mailbox and the history agree about what the DSP has received and answered. */
  ghost predicate MailAgrees(t: seq<Event>, n: Net) {
    && n.sent == Count(t) && (forall e :: e in t && e.Answered? ==> e.id < n.sent)
    && (n.inFlight.Flight? <==> Busy(t)) && (n.inFlight.Flight? ==> n.inFlight.id == n.sent - 1)
  }

  ghost predicate AllAgree(t: seq<Event>, n: Net) {
    |n.cs| == |n.asked| == |n.harm| && MailAgrees(t, n) && forall f :: f != 0 ==> Agrees(t, n, f)
  }

  /** A slot that neither belonged to `f` nor does now makes no difference to it. */
  lemma SlotElsewhere(s: seq<Client>, t: seq<Client>, cl: int, f: int)
    requires 0 <= cl < |s| == |t| && t == s[cl := t[cl]]
    requires s[cl].filep != f || s[cl].state == UNUSED
    requires t[cl].filep != f || t[cl].state == UNUSED
    ensures FindIn(t, f) == FindIn(s, f)
  {
    hide FindIn;
    var i, j := FindIn(s, f), FindIn(t, f);
    assert forall k :: 0 <= k < |s| && k != cl ==> t[k] == s[k];
    assert i == -1 || t[i] == s[i];
    assert j == -1 || s[j] == t[j];
  }

  lemma Grown(t: seq<Event>, e: Event, f: int)
    ensures Stands(t + [e], f) == Moved(Stands(t, f), e, f)
    ensures Count(t + [e]) == Count(t) + if e.Sent? then 1 else 0
  {
    assert (t + [e])[..|t|] == t;
  }

  /** The mailbox is not concerned. */
  lemma MailKept(t: seq<Event>, n: Net, e: Event, n': Net)
    requires MailAgrees(t, n) && !e.Answered? && !e.Sent? && n'.inFlight == n.inFlight && n'.sent == n.sent
    ensures MailAgrees(t + [e], n')
  {
    hide Count;
    Grown(t, e, 0);
  }

  /** One step about the file of slot `cl`: the history and the driver go on agreeing. */
  lemma OneSlotStep(t: seq<Event>, n: Net, e: Event, n': Net, cl: int)
    requires AllAgree(t, n) && |n'.cs| == |n.cs| == |n'.asked| == |n'.harm| && 0 <= cl < |n.cs|
    requires !e.Answered? && !e.NoReply? && MailAgrees(t + [e], n')
    requires n'.cs == n.cs[cl := n'.cs[cl]] && n'.asked == n.asked[cl := n'.asked[cl]]
    requires n'.harm == n.harm[cl := n'.harm[cl]]
    requires n.cs[cl].state != UNUSED ==> n.cs[cl].filep == e.f
    requires n'.cs[cl].state != UNUSED ==> n'.cs[cl].filep == e.f
    requires e.f != 0 ==> Agrees(t + [e], n', e.f)
    ensures AllAgree(t + [e], n')
  {
    hide Stands, FindIn, MailAgrees;
    forall f | f != 0
      ensures Agrees(t + [e], n', f)
    {
      if f != e.f {
        assert Agrees(t, n, f);
        Grown(t, e, f);
        SlotElsewhere(n.cs, n'.cs, cl, f);
      }
    }
  }

  /** An event that changes nothing for anybody. */
  lemma NothingMoved(t: seq<Event>, n: Net, e: Event)
    requires AllAgree(t, n) && !e.Answered? && !e.Sent?
    requires forall f :: f != 0 ==> Moved(Stands(t, f), e, f) == Stands(t, f)
    ensures AllAgree(t + [e], n)
  {
    hide Stands, FindIn, MailAgrees, Moved;
    MailKept(t, n, e, n);
    forall f | f != 0
      ensures Agrees(t + [e], n, f)
    {
      assert Agrees(t, n, f);
      Grown(t, e, f);
    }
  }

  /** The DSP answers the message in flight: whoever stands asking for that one may now read it. */
  lemma AnswerStep(t: seq<Event>, n: Net, n': Net, answer: (int, Msg) -> (int, int))
    requires InOrder(n, answer) && InOrder(n', answer) && AllAgree(t, n) && n.inFlight.Flight?
    requires n'.asked == n.asked && n'.harm == n.harm && n'.sent == n.sent && n'.inFlight == NoFlight
    requires n'.current == -1
    requires forall i :: 0 <= i < MAX_CLIENTS ==>
               n'.cs[i].filep == n.cs[i].filep
                 && (n'.cs[i].state == n.cs[i].state
                 || (n.cs[i].state == REPLY_PENDING && n'.cs[i].state == REPLY_AVAIL))
    ensures AllAgree(t + [Answered(n.inFlight.id)], n')
  {
    hide Stands, FindIn, Count;
    var e := Answered(n.inFlight.id);
    Grown(t, e, 0);
    forall f | f != 0
      ensures Agrees(t + [e], n', f)
    {
      assert Agrees(t, n, f);
      Grown(t, e, f);
      SameSlot(n.cs, n'.cs, f);
      var i := FindIn(n.cs, f);
      if i != -1 { OnlyCurrentWaits(n, n', answer, i); }
    }
  }

  /** The message in flight is the one its waiting client asked; nobody else waits. */
  lemma OnlyCurrentWaits(n: Net, n': Net, answer: (int, Msg) -> (int, int), i: int)
    requires InOrder(n, answer) && InOrder(n', answer) && n.inFlight.Flight? && 0 <= i < MAX_CLIENTS && n'.current == -1
    ensures n.cs[i].state == REPLY_PENDING ==> n.asked[i].0 == n.inFlight.id
    ensures n'.cs[i].state != REPLY_PENDING
  {
    assert SlotOK(n, answer, i) && SlotOK(n', answer, i);
  }

  /** current_client is set exactly while some file waits. */
  lemma SomebodyWaits(t: seq<Event>, n: Net, answer: (int, Msg) -> (int, int))
    requires InOrder(n, answer) && AllAgree(t, n)
    ensures n.current != -1 <==> exists f :: f != 0 && Waits(t, f)
  {
    hide Stands, FindIn, MailAgrees;
    if n.current != -1 {
      assert SlotOK(n, answer, n.current);
      var f := n.cs[n.current].filep;
      FoundAt(n.cs, f, n.current);
      assert Agrees(t, n, f);
      assert Waits(t, f);
    }
    forall f | f != 0 && Waits(t, f)
      ensures n.current != -1
    {
      assert Agrees(t, n, f);
      var i := FindIn(n.cs, f);
      assert SlotOK(n, answer, i);
    }
  }

  /** All slots are in use exactly if that many files are open. */
  lemma AllSlotsUsed(t: seq<Event>, n: Net, answer: (int, Msg) -> (int, int))
    requires InOrder(n, answer) && AllAgree(t, n)
    ensures Full(t) <==> forall i :: 0 <= i < MAX_CLIENTS ==> n.cs[i].state != UNUSED
  {
    hide Stands, FindIn, MailAgrees;
    if forall i :: 0 <= i < MAX_CLIENTS ==> n.cs[i].state != UNUSED {
      var fs := seq(MAX_CLIENTS, i requires 0 <= i < MAX_CLIENTS => n.cs[i].filep);
      forall i | 0 <= i < MAX_CLIENTS
        ensures fs[i] != 0 && Stands(t, fs[i]) != Shut
      {
        assert SlotOK(n, answer, i);
        FoundAt(n.cs, fs[i], i);
        assert Agrees(t, n, fs[i]);
      }
      assert OpenFiles(t, fs);
    }
    if fs: seq<int> :| |fs| == MAX_CLIENTS && OpenFiles(t, fs) {
      var slots := UsedSlots(t, n, fs);
      forall i | 0 <= i < MAX_CLIENTS
        ensures n.cs[i].state != UNUSED
      {
        NoneLeftOut(slots, i);
      }
    }
  }

  /** The slots of open files. */
  lemma {:induction false} UsedSlots(t: seq<Event>, n: Net, fs: seq<int>) returns (slots: set<int>)
    requires AllAgree(t, n) && OpenFiles(t, fs)
    ensures |slots| == |fs|
    ensures forall i :: i in slots ==> 0 <= i < |n.cs| && n.cs[i].state != UNUSED && n.cs[i].filep in fs
    decreases |fs|
  {
    hide Stands, FindIn, MailAgrees;
    slots := {};
    if fs != [] {
      var last := fs[|fs| - 1];
      slots := UsedSlots(t, n, fs[..|fs| - 1]);
      assert Agrees(t, n, last);
      slots := slots + {FindIn(n.cs, last)};
    }
  }

  /** Sixteen different slots leave none out. */
  lemma NoneLeftOut(slots: set<int>, i: int)
    requires |slots| == MAX_CLIENTS && (forall j :: j in slots ==> 0 <= j < MAX_CLIENTS) && 0 <= i < MAX_CLIENTS
    ensures i in slots
  {
    hide Below;
    UpTo(MAX_CLIENTS);
    var rest := Below(MAX_CLIENTS) - slots;
    assert Below(MAX_CLIENTS) == slots + rest;
    assert i in slots + rest;
  }

  ghost function Below(n: nat): (s: set<int>)
    ensures forall j :: j in s <==> 0 <= j < n
  {
    if n == 0 then {} else Below(n - 1) + {n - 1}
  }

  lemma BelowNext(n: nat)
    requires n > 0
    ensures Below(n) == Below(n - 1) + {n - 1}
  {
  }

  lemma {:induction false} UpTo(n: nat)
    ensures |Below(n)| == n
  {
    hide Below;
    if n == 0 {
      assert Below(0) == {};
    } else {
      UpTo(n - 1);
      BelowNext(n);
    }
  }

  // ----- the operations

  /** What the environment knows: whether the DSP is busy, how many messages it got, and the last one. */
  datatype Mail = Mail(busy: bool, count: int, msg: Msg)

  ghost predicate InStep(d: Driver, mail: Mail, t: seq<Event>, dsp: (int, Msg) -> (int, int))
    reads d, d.clients
  {
    && d.Valid() && d.answer == dsp && AllAgree(t, d.Snapshot())
    && mail.count == d.sent && (mail.busy <==> d.inFlight.Flight?) && (mail.busy ==> d.inFlight.msg == mail.msg)
  }

  method DoOpen(d: Driver, f: int, enabled: bool, minorOk: bool, ghost mail: Mail, ghost t: seq<Event>,
        ghost dsp: (int, Msg) -> (int, int))
    returns (e: Event)
    requires InStep(d, mail, t, dsp) && f != 0
    modifies d, d.clients
    ensures InStep(d, mail, t + [e], dsp) && Follows(t, OpenFile(f, enabled, minorOk), e, dsp)
  {
    hide InOrder, FindIn, Stands, MailAgrees, Full;
    ghost var n := d.Snapshot();
    InOrderShape(n, dsp);
    AllSlotsUsed(t, n, dsp);
    assert Agrees(t, n, f);
    ghost var cl;
    var ret;
    ret, cl := d.Open(f, enabled, minorOk);
    if ret == Done {
      e := Opened(f);
      Grown(t, e, f);
      MailKept(t, n, e, d.Snapshot());
      OneSlotStep(t, n, e, d.Snapshot(), cl);
    } else {
      e := Refused(f, ret);
      assert d.Snapshot() == n;
      NothingMoved(t, n, e);
    }
  }

  method DoClose(d: Driver, f: int, ghost mail: Mail, ghost t: seq<Event>, ghost dsp: (int, Msg) -> (int, int))
    returns (e: Event)
    requires InStep(d, mail, t, dsp) && f != 0
    modifies d, d.clients
    ensures InStep(d, mail, t + [e], dsp) && Follows(t, CloseFile(f), e, dsp)
  {
    hide InOrder, FindIn, Stands, MailAgrees;
    ghost var n := d.Snapshot();
    InOrderShape(n, dsp);
    assert Agrees(t, n, f);
    ghost var cl := d.Slot(f);
    d.Release(f);
    e := Closed(f);
    if cl != -1 {
      Grown(t, e, f);
      MailKept(t, n, e, d.Snapshot());
      OneSlotStep(t, n, e, d.Snapshot(), cl);
    } else {
      assert d.Snapshot() == n;
      NothingMoved(t, n, e);
    }
  }

  method DoRead(d: Driver, f: int, copied: bool, ghost mail: Mail, ghost t: seq<Event>,
        ghost dsp: (int, Msg) -> (int, int))
    returns (e: Event)
    requires InStep(d, mail, t, dsp) && f != 0
    modifies d, d.clients
    ensures InStep(d, mail, t + [e], dsp) && Follows(t, ReadFile(f, copied), e, dsp)
  {
    hide InOrder, FindIn, Stands, MailAgrees;
    ghost var n := d.Snapshot();
    InOrderShape(n, dsp);
    assert Agrees(t, n, f);
    ghost var cl := d.Slot(f);
    if cl != -1 { StateTells(n, dsp, cl); }
    var r := d.Read(f, MSG_BYTES, 0, copied);
    e := Looked(f, r);
    if cl != -1 && r.Reply? {
      Grown(t, e, f);
      MailKept(t, n, e, d.Snapshot());
      OneSlotStep(t, n, e, d.Snapshot(), cl);
    } else {
      assert d.Snapshot() == n;
      NothingMoved(t, n, e);
    }
  }

  /** The mailbox takes a message. */
  lemma MailSent(t: seq<Event>, n: Net, e: Event, n': Net, answer: (int, Msg) -> (int, int))
    requires MailAgrees(t, n) && e.Sent? && n'.inFlight.Flight? && n'.inFlight.id == n.sent && n'.sent == n.sent + 1
    requires InOrder(n, answer)
    ensures MailAgrees(t + [e], n') && Answered(n.sent) !in t + [e]
  {
    hide Count;
    Grown(t, e, 0);
  }

  method DoWrite(d: Driver, f: int, m: Msg, copied: bool, fifoFull: bool, mail: Mail, ghost t: seq<Event>,
        ghost dsp: (int, Msg) -> (int, int))
    returns (e: Event, mail': Mail)
    requires InStep(d, mail, t, dsp) && f != 0
    modifies d, d.clients
    ensures InStep(d, mail', t + [e], dsp) && Follows(t, WriteFile(f, m, copied, fifoFull), e, dsp)
  {
    hide InOrder, FindIn, Stands, MailAgrees, Waits, Busy, Count;
    ghost var n := d.Snapshot();
    InOrderShape(n, dsp);
    SomebodyWaits(t, n, dsp);
    MailMeans(t, n);
    assert Agrees(t, n, f);
    ghost var cl := d.Slot(f);
    mail' := mail;
    var idle := d.current == -1;
    var ret := d.Write(f, MSG_BYTES, m, copied, fifoFull);
    e := if ret == Done then Sent(f, mail.count, m)
         else if idle && ret == EAGAIN then Dropped(f)
         else if ret == EFAULT then Spoiled(f, m)
         else Refused(f, ret);
    Grown(t, e, f);
    if ret == Done {
      mail' := Mail(true, mail.count + 1, m);
      MailSent(t, n, e, d.Snapshot(), dsp);
      OneSlotStep(t, n, e, d.Snapshot(), cl);
    } else if e.Refused? {
      assert d.Snapshot() == n;
      NothingMoved(t, n, e);
    } else {
      StateTells(n, dsp, cl);
      MailKept(t, n, e, d.Snapshot());
      OneSlotStep(t, n, e, d.Snapshot(), cl);
    }
  }

  lemma MailMeans(t: seq<Event>, n: Net)
    requires MailAgrees(t, n)
    ensures n.sent == Count(t) && (n.inFlight.Flight? <==> Busy(t))
    ensures n.inFlight.Flight? ==> n.inFlight.id == n.sent - 1
  {
  }

  method DoReply(d: Driver, mail: Mail, ghost t: seq<Event>, dsp: (int, Msg) -> (int, int))
    returns (e: Event, mail': Mail)
    requires InStep(d, mail, t, dsp)
    modifies d, d.clients
    ensures InStep(d, mail', t + [e], dsp) && Follows(t, ReplyArrives, e, dsp)
  {
    hide InOrder, FindIn, Stands, MailAgrees, Busy, Count;
    ghost var n := d.Snapshot();
    InOrderShape(n, dsp);
    MailMeans(t, n);
    mail', e := mail, NoReply;
    if mail.busy {
      StateTells(n, dsp, if n.current == -1 then 0 else n.current);
      var (r1, r2) := dsp(mail.count - 1, mail.msg);
      d.Interrupt(r1, r2);
      e := Answered(mail.count - 1);
      mail' := mail.(busy := false);
      AnswerStep(t, n, d.Snapshot(), dsp);
    } else {
      NothingMoved(t, n, e);
    }
  }

  /** Every run: whatever files are opened, closed, written and read, and whenever the DSP answers,
      each operation does and returns what follows from the history alone. */
  method Run(steps: seq<Step>, dsp: (int, Msg) -> (int, int)) returns (t: seq<Event>)
    requires forall s :: s in steps ==> NamesFile(s)
    ensures |t| == |steps| && forall i :: 0 <= i < |t| ==> Follows(t[..i], steps[i], t[i], dsp)
  {
    hide InOrder, FindIn, Stands, Follows;
    var d := new Driver(dsp);
    t := [];
    var mail := Mail(false, 0, Msg(0, 0, 0));
    InOrderShape(d.Snapshot(), dsp);
    AtStart(d.Snapshot());
    for i := 0 to |steps|
      invariant fresh(d) && fresh(d.clients) && InStep(d, mail, t, dsp) && |t| == i
      invariant forall j :: 0 <= j < i ==> Follows(t[..j], steps[j], t[j], dsp)
    {
      assert NamesFile(steps[i]);
      var e;
      match steps[i] {
        case OpenFile(f, enabled, minorOk) => e := DoOpen(d, f, enabled, minorOk, mail, t, dsp);
        case CloseFile(f) => e := DoClose(d, f, mail, t, dsp);
        case WriteFile(f, m, copied, full) => e, mail := DoWrite(d, f, m, copied, full, mail, t, dsp);
        case ReadFile(f, copied) => e := DoRead(d, f, copied, mail, t, dsp);
        case ReplyArrives => e, mail := DoReply(d, mail, t, dsp);
      }
      assert forall j :: 0 <= j <= i ==> (t + [e])[..j] == t[..j];
      t := t + [e];
    }
  }

  lemma AtStart(n: Net)
    requires |n.cs| == |n.asked| == |n.harm| && n.inFlight == NoFlight && n.sent == 0
    requires forall i :: 0 <= i < |n.cs| ==> n.cs[i].state == UNUSED
    ensures AllAgree([], n)
  {
    forall f | f != 0
      ensures Agrees([], n, f)
    {
      NoSlot(n.cs, f);
    }
  }

  // ----- when a read is the DSP's answer

  /** The last request sent from this opening of `f`. */
  ghost function LastSent(t: seq<Event>, f: int): Standing {
    if t == [] then Shut
    else
      var e := t[|t| - 1];
      if e.Sent? && e.f == f then Asked(e.id, e.msg) else LastSent(t[..|t| - 1], f)
  }

  /** No write of `f` has failed in the copying since that request. While a request is unanswered no
      write gets as far as copying, so this is: since the answer arrived. */
  ghost predicate Unspoiled(t: seq<Event>, f: int) {
    t == [] || (t[|t| - 1].Sent? && t[|t| - 1].f == f)
    || (!(t[|t| - 1].Spoiled? && t[|t| - 1].f == f) && Unspoiled(t[..|t| - 1], f))
  }

  /** A message that can be read is the DSP's answer to the file's last request iff no write of the
      file has failed in the copying since, or such a write happened to leave the very same words. */
  lemma {:induction false} AnswerExactly(t: seq<Event>, dsp: (int, Msg) -> (int, int), f: int)
    requires Expected(t, dsp, f).Reply?
    ensures var a := LastSent(t, f);
            && a.Asked? && (Unspoiled(t, f) <==> Stands(t, f) == a)
            && (Expected(t, dsp, f).msg == ReplyTo(dsp, a.id, a.msg) <==>
                  Unspoiled(t, f) || Stands(t, f) == Harmed(ReplyTo(dsp, a.id, a.msg)))
  {
    StandsSince(t, f);
  }

  lemma {:induction false} StandsSince(t: seq<Event>, f: int)
    requires Stands(t, f).Asked? || Stands(t, f).Harmed?
    ensures LastSent(t, f).Asked? && (Unspoiled(t, f) <==> Stands(t, f).Asked?)
    ensures Unspoiled(t, f) ==> Stands(t, f) == LastSent(t, f)
  {
    var e, t' := t[|t| - 1], t[..|t| - 1];
    assert Stands(t, f) == Moved(Stands(t', f), e, f);
    if e.Sent? && e.f == f {
      assert LastSent(t, f) == Stands(t, f) && Unspoiled(t, f);
    } else {
      StandsSince(t', f);
      assert LastSent(t, f) == LastSent(t', f);
      assert Unspoiled(t, f) == (!(e.Spoiled? && e.f == f) && Unspoiled(t', f));
    }
  }

  /** A reply is lost to a failed write: the read returns what the copy left. */
  method DamagedReply(dsp: (int, Msg) -> (int, int), m: Msg, left: Msg) returns (r: Reading)
    ensures r == Reply(left)
  {
    hide InOrder, FindIn, MailboxOK, SlotOK;
    var d := new Driver(dsp);
    InOrderShape(d.Snapshot(), dsp);
    assert d.Slot(7) == -1 && d.clients[0].state == UNUSED;
    var ret, cl := d.Open(7, true, true);
    ret := d.Write(7, MSG_BYTES, m, true, false);
    assert ret == Done;
    var (r1, r2) := dsp(0, m);
    ghost var waiting := d.clients[..];
    d.Interrupt(r1, r2);
    SameSlot(waiting, d.clients[..], 7);
    ret := d.Write(7, MSG_BYTES, left, false, false);
    assert ret == EFAULT;
    r := d.Read(7, MSG_BYTES, 0, true);
  }
}
