/** Pipes: one shared buffer, a read end and a write end, and readers that sleep on a sequence number. */
module Pipes {
  import opened Bytes

  const PIPE_INITIAL_CAPACITY: nat := 4096

  /** The shared structure together with the offsets of the two open files. `wakes` is the wait queue's sequence
      number before it is cut to 32 bits. */
  datatype Pipe = Pipe(buffer: seq<byte>, capacity: nat, writeOffset: nat, readers: nat, writers: nat,
                       readPos: nat, writePos: nat, wakes: nat)

  datatype Outcome = Got(count: nat) | EAgain | EIntr | EPipe | ENoMem

  ghost predicate WellFormed(p: Pipe) {
    p.capacity > 0 && |p.buffer| == p.capacity + 1 && p.writeOffset <= p.capacity
  }

  /** The bytes in the pipe, from the first ever written. */
  function Stream(p: Pipe): seq<byte>
    requires p.writeOffset <= |p.buffer|
  {
    p.buffer[..p.writeOffset]
  }

  function Available(p: Pipe): nat {
    if p.readPos < p.writeOffset then p.writeOffset - p.readPos else 0
  }

  /** What the locked section of a read of `len` bytes does. */
  ghost predicate Took(p: Pipe, p': Pipe, len: nat, bytes: seq<byte>) {
    && WellFormed(p) && |bytes| == Min(len, Available(p)) && p' == p.(readPos := p.readPos + |bytes|)
    && (bytes != [] ==> bytes == Stream(p)[p.readPos..p.readPos + |bytes|])
  }

  /** The capacity for `need` bytes. */
  function Enlarged(cap: nat, need: nat): nat {
    if need <= cap then cap else Doubled(if cap != 0 then cap else PIPE_INITIAL_CAPACITY, need)
  }

  /** What the locked section of a write does: the stream is overwritten at the file's offset. */
  ghost predicate Put(p: Pipe, p': Pipe, data: seq<byte>) {
    && WellFormed(p) && WellFormed(p') && Stream(p') == WriteBytes(Stream(p), p.writePos, data)
    && p'.writePos == p.writePos + |data| && p'.readPos == p.readPos && p'.wakes == p.wakes
    && p'.capacity == Enlarged(p.capacity, p.writePos + |data|)
    && p'.readers == p.readers && p'.writers == p.writers
  }

  class Shared {
    var buffer: seq<byte>
    var capacity: nat
    var writeOffset: nat
    var readers: nat
    var writers: nat
    var wakes: nat
    /** The offsets of the open files of the two ends. */
    var readPos: nat
    var writePos: nat

    ghost function View(): Pipe
      reads this
    {
      Pipe(buffer, capacity, writeOffset, readers, writers, readPos, writePos, wakes)
    }

    /** `vfs_pipe_create` */
    constructor ()
      ensures WellFormed(View()) && Stream(View()) == [] && readPos == writePos == 0 && readers == writers == 1
    {
      capacity := PIPE_INITIAL_CAPACITY;
      buffer := seq(PIPE_INITIAL_CAPACITY + 1, _ => 0);
      writeOffset, readers, writers, wakes, readPos, writePos := 0, 1, 1, 1, 0, 0;
    }

    /** The locked section of `vfs_pipe_read`, with what it saw of the writers. */
    method TakeLocked(len: nat) returns (bytes: seq<byte>, writersSeen: nat, offsetSeen: nat)
      requires WellFormed(View())
      modifies this
      ensures Took(old(View()), View(), len, bytes) && writersSeen == writers && offsetSeen == writeOffset
    {
      writersSeen, offsetSeen := writers, writeOffset;
      var available := if readPos < writeOffset then writeOffset - readPos else 0;
      bytes := [];
      if available > 0 {
        var chunk := Min(len, available);
        bytes := buffer[readPos..readPos + chunk];
        readPos := readPos + chunk;
      }
    }

    /** The locked section of `vfs_pipe_write`; `granted` says whether a larger buffer could be had. */
    method PutLocked(data: seq<byte>, granted: bool) returns (r: Outcome)
      requires WellFormed(View()) && data != []
      modifies this
      ensures r.Got? ==> r.count == |data| && Put(old(View()), View(), data)
      ensures !r.Got? ==> View() == old(View())
      ensures r == EPipe <==> old(readers) == 0
      ensures r == ENoMem <==> old(readers) > 0 && !granted && old(writePos) + |data| > old(capacity)
      ensures r in {EPipe, ENoMem, Got(|data|)}
    {
      if readers == 0 { return EPipe; }
      var ok := Reserve(writePos + |data|, granted);
      if !ok { return ENoMem; }
      StoreBytes(data);
      r := Got(|data|);
    }

    /** Its copying part, once there is room. */
    method StoreBytes(data: seq<byte>)
      requires WellFormed(View()) && writePos + |data| <= capacity
      modifies `buffer, `writePos, `writeOffset
      ensures Put(old(View()), View(), data) && capacity == old(capacity)
    {
      hide Splice, Zeros, WriteBytes;
      StoredAt(View(), data);
      var start := writePos;
      if start > writeOffset {
        buffer := Splice(buffer, writeOffset, Zeros(start - writeOffset));
      }
      buffer := Splice(buffer, start, data);
      writePos := writePos + |data|;
      if writePos > writeOffset {
        writeOffset := writePos;
      }
      buffer := buffer[writeOffset := 0];
    }

    /** Doubles the capacity until `need` bytes fit. */
    method Reserve(need: nat, granted: bool) returns (ok: bool)
      requires WellFormed(View())
      modifies `buffer, `capacity
      ensures WellFormed(View()) && Stream(View()) == old(Stream(View()))
      ensures ok <==> granted || need <= old(capacity)
      ensures ok ==> capacity == Enlarged(old(capacity), need) >= need
      ensures !ok ==> View() == old(View())
    {
      if need > capacity {
        var newCap := if capacity != 0 then capacity else PIPE_INITIAL_CAPACITY;
        while newCap < need
          invariant newCap > 0 && newCap >= capacity && Enlarged(capacity, need) == Doubled(newCap, need)
          decreases need - newCap
        {
          newCap := newCap * 2;
        }
        if !granted { return false; }
        buffer := buffer[..capacity] + seq(newCap + 1 - capacity, _ => 0);
        capacity := newCap;
      }
      ok := true;
    }

    /** The locked section of `pipe_close`. */
    method CloseLocked(readEnd: bool)
      modifies this
      ensures View() == old(Closed(View(), readEnd))
      ensures View() == old(View()).(readers := readers, writers := writers)
      ensures readers == if readEnd && old(readers) > 0 then old(readers) - 1 else old(readers)
      ensures writers == if !readEnd && old(writers) > 0 then old(writers) - 1 else old(writers)
    {
      if readEnd {
        if readers > 0 { readers := readers - 1; }
      } else {
        if writers > 0 { writers := writers - 1; }
      }
    }

    /** `sched_waitq_wake_all` */
    method WakeAll()
      modifies this
      ensures View() == old(View()).(wakes := old(wakes) + 1)
    {
      wakes := wakes + 1;
    }
  }

  /** The bytes land in the buffer, past a gap of zeros if the file's offset lies beyond the end. */
  lemma StoredAt(p: Pipe, data: seq<byte>)
    requires WellFormed(p) && p.writePos + |data| <= p.capacity
    ensures var b := if p.writePos > p.writeOffset then Splice(p.buffer, p.writeOffset, Zeros(p.writePos - p.writeOffset)) else p.buffer;
            && |b| == |p.buffer| && |Splice(b, p.writePos, data)| == |b|
            && var n := Max(p.writeOffset, p.writePos + |data|);
               Splice(b, p.writePos, data)[n := 0][..n] == WriteBytes(Stream(p), p.writePos, data)
  {
  }

  function Closed(p: Pipe, readEnd: bool): Pipe {
    if readEnd then p.(readers := if p.readers > 0 then p.readers - 1 else 0)
    else p.(writers := if p.writers > 0 then p.writers - 1 else 0)
  }

  // Threads

  /** Where a thread stands. `ticket` is the sequence number it took before looking at the pipe. */
  datatype Thread =
    | Idle
    | Entered(len: nat)
    | Prepared(len: nat, ticket: nat)
    | Checked(len: nat, ticket: nat, total: nat, writersSeen: nat, offsetSeen: nat)
    | Waiting(len: nat, ticket: nat)
    | Asleep(len: nat, ticket: nat)
    | Updated
    | Returned(outcome: Outcome)

  /** `written` and `taken` record all bytes written and read so far. */
  datatype State = State(pipe: Pipe, threads: map<nat, Thread>, written: seq<byte>, taken: seq<byte>)

  /** One step of one thread: a locked section, a load or an increment of the sequence number, or a local decision. */
  datatype Label =
    | Call(t: nat, len: nat)
    | Prepare(t: nat)
    | Check(t: nat)
    | Decide(t: nat, nonblock: bool)
    | Look(t: nat)
    | Interrupt(t: nat)
    | Signal(t: nat)
    | Write(t: nat, data: seq<byte>, granted: bool)
    | Close(t: nat, readEnd: bool)
    | Wake(t: nat)
    | Leave(t: nat)

  ghost predicate At(s: State, t: nat) { t in s.threads }

  ghost predicate Moves(s: State, s': State, t: nat, th: Thread) {
    s' == s.(threads := s.threads[t := th])
  }

  ghost predicate CheckStep(s: State, s': State, t: nat, th: Thread) {
    && th.Prepared?
    && exists bytes: seq<byte> ::
         && Took(s.pipe, s'.pipe, th.len, bytes)
         && s' == State(s'.pipe, s.threads[t := Checked(th.len, th.ticket, |bytes|, s.pipe.writers, s.pipe.writeOffset)],
                        s.written, s.taken + bytes)
  }

  ghost predicate DecideStep(s: State, s': State, t: nat, th: Thread, nonblock: bool) {
    && th.Checked?
    && Moves(s, s', t,
         if th.total > 0 || (th.writersSeen == 0 && s.pipe.readPos >= th.offsetSeen) then Returned(Got(th.total))
         else if nonblock then Returned(EAgain)
         else Waiting(th.len, th.ticket))
  }

  /** The sequence number is compared as a 32-bit number. */
  ghost predicate LookStep(s: State, s': State, t: nat, th: Thread) {
    && th.Waiting?
    && Moves(s, s', t, if s.pipe.wakes % U32 != th.ticket % U32 then Entered(th.len) else Asleep(th.len, th.ticket))
  }

  ghost predicate WriteStep(s: State, s': State, t: nat, data: seq<byte>, granted: bool) {
    && data != []
    && if s.pipe.readers == 0 then Moves(s, s', t, Returned(EPipe))
       else if !granted && s.pipe.writePos + |data| > s.pipe.capacity then Moves(s, s', t, Returned(ENoMem))
       else Put(s.pipe, s'.pipe, data) && s' == State(s'.pipe, s.threads[t := Updated], s.written + data, s.taken)
  }

  /** Files are used only while open; seeks are not part of these runs. */
  ghost predicate Next(s: State, s': State, l: Label) {
    && At(s, l.t)
    && var t, th := l.t, s.threads[l.t];
       match l
       case Call(_, len) => th.Idle? && len > 0 && Moves(s, s', t, Entered(len))
       case Prepare(_) => th.Entered? && Moves(s, s', t, Prepared(th.len, s.pipe.wakes))
       case Check(_) => CheckStep(s, s', t, th)
       case Decide(_, nonblock) => DecideStep(s, s', t, th, nonblock)
       case Look(_) => LookStep(s, s', t, th)
       case Interrupt(_) => th.Asleep? && Moves(s, s', t, Waiting(th.len, th.ticket))
       case Signal(_) => th.Waiting? && Moves(s, s', t, Returned(EIntr))
       case Write(_, data, granted) => th.Idle? && s.pipe.writers > 0 && WriteStep(s, s', t, data, granted)
       case Close(_, readEnd) => th.Idle? && s' == s.(pipe := Closed(s.pipe, readEnd), threads := s.threads[t := Updated])
       case Wake(_) => th.Updated? && s' == s.(pipe := s.pipe.(wakes := s.pipe.wakes + 1), threads := s.threads[t := Idle])
       case Leave(_) => th.Returned? && Moves(s, s', t, Idle)
  }

  /** A fresh pipe and any number of threads. */
  ghost predicate Init(s: State) {
    && WellFormed(s.pipe) && Stream(s.pipe) == [] && s.pipe.readPos == s.pipe.writePos == 0
    && s.written == [] && s.taken == []
    && forall t | At(s, t) :: s.threads[t] == Idle
  }

  // What every step keeps

  /** Nothing to read, and there may be more. */
  ghost predicate Quiet(s: State) {
    s.pipe.readPos >= s.pipe.writeOffset && s.pipe.writers > 0
  }

  /** Some thread has changed the pipe and not yet announced it. */
  ghost predicate Pending(s: State) {
    exists u :: At(s, u) && s.threads[u].Updated?
  }

  /** The thread is going to sleep, or asleep, on `ticket`. */
  ghost predicate Blocked(th: Thread) {
    th.Waiting? || th.Asleep? || (th.Checked? && th.total == 0 && th.writersSeen > 0)
  }

  ghost predicate StreamOK(s: State) {
    && WellFormed(s.pipe) && s.pipe.writePos == s.pipe.writeOffset && s.pipe.readPos <= s.pipe.writeOffset
    && s.written == Stream(s.pipe) && s.taken == s.written[..s.pipe.readPos]
  }

  ghost predicate ThreadOK(s: State, t: nat)
    requires At(s, t)
  {
    var th := s.threads[t];
    && ((th.Entered? || th.Prepared? || th.Checked? || th.Waiting? || th.Asleep?) ==> th.len > 0)
    && ((th.Prepared? || th.Checked? || th.Waiting? || th.Asleep?) ==> th.ticket <= s.pipe.wakes)
    && (Blocked(th) && th.ticket == s.pipe.wakes ==> Quiet(s) || Pending(s))
    && (th.Checked? && th.total == 0 ==> th.offsetSeen <= s.pipe.readPos)
    && (th.Checked? && th.total == 0 && th.writersSeen == 0 ==> s.pipe.writers == 0 && s.taken == s.written)
    && (th == Returned(Got(0)) ==> s.pipe.writers == 0 && s.taken == s.written)
  }

  ghost predicate Inv(s: State) {
    StreamOK(s) && forall t {:trigger ThreadOK(s, t)} | At(s, t) :: ThreadOK(s, t)
  }

  lemma InitInv(s: State)
    requires Init(s)
    ensures Inv(s)
  {
  }

  lemma AppendBytes(f: seq<byte>, data: seq<byte>)
    ensures WriteBytes(f, |f|, data) == f + data
  {
  }

  lemma NextStream(s: State, s': State, l: Label)
    requires StreamOK(s) && Next(s, s', l)
    ensures StreamOK(s')
  {
    if l.Write? {
      AppendBytes(Stream(s.pipe), l.data);
    }
  }

  /** Only the announcement itself ends the time between an update and its announcement. */
  lemma NextPending(s: State, s': State, l: Label)
    requires Next(s, s', l)
    ensures Pending(s) && !l.Wake? ==> Pending(s')
    ensures s'.pipe.writers < s.pipe.writers || s'.pipe.writeOffset > s.pipe.writeOffset ==> Pending(s')
  {
    if u :| At(s, u) && s.threads[u].Updated? && !l.Wake? {
      assert At(s', u) && s'.threads[u].Updated?;
    }
    assert At(s', l.t);
  }

  lemma NextInv(s: State, s': State, l: Label)
    requires Inv(s) && Next(s, s', l)
    ensures Inv(s')
  {
    NextStream(s, s', l);
    NextPending(s, s', l);
    assert ThreadOK(s, l.t);
    forall t | At(s', t)
      ensures ThreadOK(s', t)
    {
      assert ThreadOK(s, t);
    }
  }

  // Runs

  ghost predicate Run(ss: seq<State>, ls: seq<Label>) {
    |ss| == |ls| + 1 && Init(ss[0]) && forall k {:trigger ls[k]} | 0 <= k < |ls| :: Next(ss[k], ss[k + 1], ls[k])
  }

  lemma {:induction false} RunInv(ss: seq<State>, ls: seq<Label>, n: nat)
    requires Run(ss, ls) && n <= |ls|
    ensures Inv(ss[n])
  {
    if n == 0 {
      InitInv(ss[0]);
    } else {
      RunInv(ss, ls, n - 1);
      NextInv(ss[n - 1], ss[n], ls[n - 1]);
    }
  }

  /** No wake-up is lost: a thread that found its ticket current and sleeps, fewer than 2^32 wake-ups after taking it,
      has nothing to read and writers left, unless an update is about to be announced. */
  lemma NoLostWakeup(ss: seq<State>, ls: seq<Label>, n: nat, t: nat)
    requires Run(ss, ls) && n <= |ls| && At(ss[n], t) && ss[n].threads[t].Asleep?
    requires var ticket := ss[n].threads[t].ticket;
             ss[n].pipe.wakes < ticket + U32 && ticket % U32 == ss[n].pipe.wakes % U32
    ensures Quiet(ss[n]) || Pending(ss[n])
  {
    RunInv(ss, ls, n);
    assert ThreadOK(ss[n], t);
    SameTicket(ss[n].threads[t].ticket, ss[n].pipe.wakes);
  }

  lemma SameTicket(a: nat, b: nat)
    requires a <= b < a + U32 && a % U32 == b % U32
    ensures a == b
  {
  }

  /** The thread sleeps although there is something to read or no writer is left, and nobody is about to say so. */
  ghost predicate Lost(s: State, t: nat) {
    At(s, t) && s.threads[t].Asleep? && !Quiet(s) && !Pending(s)
  }

  /** When there is something to notice, a thread on its way to sleep misses it exactly when a positive multiple of
      2^32 wake-ups has gone by since it took its ticket. */
  lemma SleepLosesIff(s: State, s': State, t: nat)
    requires Inv(s) && At(s, t) && s.threads[t].Waiting? && !Quiet(s) && !Pending(s) && Next(s, s', Look(t))
    ensures var n := s.pipe.wakes - s.threads[t].ticket; Lost(s', t) <==> n > 0 && n % U32 == 0
  {
    assert ThreadOK(s, t);
    var ticket, wakes := s.threads[t].ticket, s.pipe.wakes;
    SameRemainder(ticket, wakes);
    forall u | At(s', u)
      ensures !s'.threads[u].Updated?
    {
      assert u != t ==> At(s, u);
    }
  }

  lemma SameRemainder(a: nat, b: nat)
    requires a <= b
    ensures a % U32 == b % U32 <==> (b - a) % U32 == 0
  {
    var q := (b - a) / U32;
    assert b == a + q * U32 + (b - a) % U32;
    assert (b - a) % U32 == 0 ==> b % U32 == a % U32 by {
      if (b - a) % U32 == 0 {
        assert b == (a / U32 + q) * U32 + a % U32;
      }
    }
    assert a % U32 == b % U32 ==> b - a == (b / U32 - a / U32) * U32;
  }

  // The wrapped ticket is reachable

  /** A reader that found nothing and is on its way to sleep, an idle writer, and `n` writes announced since. */
  ghost predicate WrittenSince(s: State, n: nat) {
    && StreamOK(s) && s.pipe.readers > 0 && s.pipe.writers > 0 && s.pipe.readPos == 0 && s.pipe.writeOffset == n
    && s.pipe.wakes >= n && s.threads == map[0 := Waiting(1, s.pipe.wakes - n), 1 := Idle]
  }

  function Fresh(): Pipe {
    Pipe(seq(PIPE_INITIAL_CAPACITY + 1, _ => 0), PIPE_INITIAL_CAPACITY, 0, 1, 1, 0, 0, 1)
  }

  /** The reader calls, takes its ticket, finds nothing and decides to wait. */
  lemma ReaderWaits() returns (ss: seq<State>, ls: seq<Label>)
    ensures Run(ss, ls) && WrittenSince(ss[|ls|], 0)
  {
    var p := Fresh();
    var s0 := State(p, map[0 := Idle, 1 := Idle], [], []);
    var s1 := s0.(threads := s0.threads[0 := Entered(1)]);
    var s2 := s1.(threads := s1.threads[0 := Prepared(1, p.wakes)]);
    var s3 := s2.(threads := s2.threads[0 := Checked(1, p.wakes, 0, 1, 0)]);
    var s4 := s3.(threads := s3.threads[0 := Waiting(1, p.wakes)]);
    assert Took(s2.pipe, s3.pipe, 1, []);
    assert Stream(p) == [] && s2.taken + [] == s2.taken;
    assert CheckStep(s2, s3, 0, s2.threads[0]);
    ss, ls := [s0, s1, s2, s3, s4], [Call(0, 1), Prepare(0), Check(0), Decide(0, false)];
    assert Next(s0, s1, ls[0]) && Next(s1, s2, ls[1]) && Next(s2, s3, ls[2]) && Next(s3, s4, ls[3]);
    assert s4.threads == map[0 := Waiting(1, p.wakes), 1 := Idle];
  }

  /** One more byte written and announced. */
  lemma WriterGoesOn(s: State, n: nat) returns (s1: State, s2: State)
    requires WrittenSince(s, n)
    ensures Next(s, s1, Write(1, [1], true)) && Next(s1, s2, Wake(1)) && WrittenSince(s2, n + 1)
  {
    var p := s.pipe;
    var cap := Enlarged(p.capacity, n + 1);
    var p1 := p.(buffer := Stream(p) + [1] + seq<byte>(cap - n, _ => 0), capacity := cap, writeOffset := n + 1, writePos := n + 1);
    AppendBytes(Stream(p), [1]);
    assert Stream(p1) == Stream(p) + [1];
    s1 := State(p1, s.threads[1 := Updated], s.written + [1], s.taken);
    s2 := s1.(pipe := p1.(wakes := p.wakes + 1), threads := s1.threads[1 := Idle]);
    assert Stream(s2.pipe) == Stream(p1);
    assert s2.threads == map[0 := Waiting(1, p.wakes - n), 1 := Idle];
  }

  lemma {:induction false} WriterWrites(n: nat) returns (ss: seq<State>, ls: seq<Label>)
    ensures Run(ss, ls) && WrittenSince(ss[|ls|], n)
    decreases n
  {
    if n == 0 {
      ss, ls := ReaderWaits();
    } else {
      ss, ls := WriterWrites(n - 1);
      var s1, s2 := WriterGoesOn(ss[|ls|], n - 1);
      hide Next, WrittenSince, Init;
      RunOn(ss, ls, s1, Write(1, [1], true));
      RunOn(ss + [s1], ls + [Write(1, [1], true)], s2, Wake(1));
      ss, ls := ss + [s1] + [s2], ls + [Write(1, [1], true)] + [Wake(1)];
    }
  }

  lemma RunOn(ss: seq<State>, ls: seq<Label>, s: State, l: Label)
    requires Run(ss, ls) && Next(ss[|ls|], s, l)
    ensures Run(ss + [s], ls + [l])
  {
    hide Next, Init;
    forall k {:trigger (ls + [l])[k]} | 0 <= k < |ls + [l]|
      ensures Next((ss + [s])[k], (ss + [s])[k + 1], (ls + [l])[k])
    {
      assert k < |ls| ==> (ls + [l])[k] == ls[k];
    }
  }

  /** A run that loses a wake-up: 2^32 writes are announced while the reader is on its way to sleep. */
  lemma WrappedTicketLosesWakeup() returns (ss: seq<State>, ls: seq<Label>)
    ensures Run(ss, ls) && Lost(ss[|ls|], 0) && Available(ss[|ls|].pipe) == U32
  {
    ss, ls := WriterWrites(U32);
    var s := ss[|ls|];
    var s' := s.(threads := s.threads[0 := Asleep(1, s.threads[0].ticket)]);
    RunInv(ss, ls, |ls|);
    assert Next(s, s', Look(0));
    RunOn(ss, ls, s', Look(0));
    forall u | At(s', u)
      ensures !s'.threads[u].Updated?
    {
    }
    ss, ls := ss + [s'], ls + [Look(0)];
  }

  /** What has been read is a prefix of what has been written, in order. */
  lemma ReadsArePrefix(ss: seq<State>, ls: seq<Label>, n: nat)
    requires Run(ss, ls) && n <= |ls|
    ensures ss[n].taken <= ss[n].written
  {
    RunInv(ss, ls, n);
  }

  /** A read of no bytes means that the last writer has closed and everything was read, for good. */
  lemma {:induction false} EndOfFileIsFinal(ss: seq<State>, ls: seq<Label>, n: nat, m: nat, t: nat)
    requires Run(ss, ls) && n <= m <= |ls| && At(ss[n], t) && ss[n].threads[t] == Returned(Got(0))
    ensures ss[m].pipe.writers == 0 && ss[m].taken == ss[m].written == ss[n].written
  {
    RunInv(ss, ls, m);
    if m == n {
      assert ThreadOK(ss[n], t);
    } else {
      EndOfFileIsFinal(ss, ls, n, m - 1, t);
      RunInv(ss, ls, m - 1);
      assert Next(ss[m - 1], ss[m], ls[m - 1]);
    }
  }

  /** When there is something to read, or no writer is left, and every update has been announced, a sleeping reader
      needs only its own steps to return with it. */
  lemma SleeperReturns(s: State, t: nat) returns (ss: seq<State>)
    requires Inv(s) && At(s, t) && s.threads[t].Asleep? && !Quiet(s) && !Pending(s)
    requires s.pipe.wakes < s.threads[t].ticket + U32
    ensures |ss| == 6 && ss[0] == s
    ensures Next(ss[0], ss[1], Interrupt(t)) && Next(ss[1], ss[2], Look(t)) && Next(ss[2], ss[3], Prepare(t))
    ensures Next(ss[3], ss[4], Check(t)) && Next(ss[4], ss[5], Decide(t, false))
    ensures ss[5].threads[t] == Returned(Got(Min(s.threads[t].len, Available(s.pipe))))
  {
    var th, p := s.threads[t], s.pipe;
    assert ThreadOK(s, t);
    if p.wakes % U32 == th.ticket % U32 {
      SameTicket(th.ticket, p.wakes);
    }
    var s1 := s.(threads := s.threads[t := Waiting(th.len, th.ticket)]);
    var s2 := s1.(threads := s1.threads[t := Entered(th.len)]);
    var s3 := s2.(threads := s2.threads[t := Prepared(th.len, p.wakes)]);
    var bytes := Stream(p)[p.readPos..p.readPos + Min(th.len, Available(p))];
    var p' := p.(readPos := p.readPos + |bytes|);
    assert Took(s3.pipe, p', th.len, bytes);
    var s4 := State(p', s3.threads[t := Checked(th.len, p.wakes, |bytes|, p.writers, p.writeOffset)], s.written, s.taken + bytes);
    var s5 := s4.(threads := s4.threads[t := Returned(Got(|bytes|))]);
    ss := [s, s1, s2, s3, s4, s5];
  }

  /** Closing the last write end ends the stream: a reader that slept with nothing left to read returns no bytes. */
  lemma LastWriterEndsTheStream(ss: seq<State>, ls: seq<Label>, i: nat, t: nat) returns (more: seq<State>)
    requires Run(ss, ls) && i + 2 <= |ls| && ls[i].Close? && !ls[i].readEnd && ls[i + 1] == Wake(ls[i].t)
    requires ss[i].pipe.writers == 1 && ss[i].taken == ss[i].written && !Pending(ss[i])
    requires At(ss[i], t) && ss[i].threads[t].Asleep? && ss[i].pipe.wakes + 1 < ss[i].threads[t].ticket + U32
    ensures |more| == 6 && more[0] == ss[i + 2]
    ensures Next(more[0], more[1], Interrupt(t)) && Next(more[1], more[2], Look(t)) && Next(more[2], more[3], Prepare(t))
    ensures Next(more[3], more[4], Check(t)) && Next(more[4], more[5], Decide(t, false))
    ensures more[5].threads[t] == Returned(Got(0)) && more[5].pipe.writers == 0 && more[5].pipe.readers == ss[i].pipe.readers
  {
    RunInv(ss, ls, i);
    RunInv(ss, ls, i + 2);
    assert Next(ss[i], ss[i + 1], ls[i]) && Next(ss[i + 1], ss[i + 2], ls[i + 1]);
    NonePending(ss[i], ss[i + 1], ss[i + 2], ls[i].t);
    more := SleeperReturns(ss[i + 2], t);
  }

  lemma NonePending(s: State, s1: State, s2: State, u: nat)
    requires !Pending(s) && At(s, u) && s1.threads == s.threads[u := Updated] && s2.threads == s1.threads[u := Idle]
    ensures !Pending(s2)
  {
    forall v | At(s2, v)
      ensures !s2.threads[v].Updated?
    {
      assert v != u ==> At(s, v);
    }
  }

  /** Once the last read end is closed every write fails. */
  lemma LastReaderBreaksThePipe(s: State, s1: State, s2: State, u: nat, v: nat, data: seq<byte>, granted: bool)
    requires Next(s, s1, Close(u, true)) && s.pipe.readers == 1 && u != v && Next(s1, s2, Write(v, data, granted))
    ensures s2.threads[v] == Returned(EPipe) && s2.pipe == s1.pipe && s2.written == s.written && s1.pipe.writers == s.pipe.writers
  {
  }
}
