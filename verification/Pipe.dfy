/**
 * pipe (internal/proxy/http.go): two copiers and a supervisor as interleaved steps. Reads and writes
 * return what the peers and the network make them return.
 */
module Pipe {
  import opened Bytes
  import opened Options

  const BUFFER: nat := 32 * 1024

  /** Where a copier is in its loop. */
  datatype Pc =
    | Head                              // about to Read
    | HasRead(buf: seq<byte>, err: bool)  // Read returned bytes, not yet counted
    | Counted(buf: seq<byte>, err: bool)  // counted, about to Write
    | Sending                           // left the loop, about to send on errCh
    | Exited

  /** What made a copier leave its loop. */
  datatype Cause = SourceEnded | ReadBroke | WriteBroke

  /**
   * One direction: all that the source sends before it ends, everything read from it so far, everything
   * delivered, the byte counter, and the error met, if any.
   */
  datatype Copier = Copier(
    source: seq<byte>, pc: Pc, read: seq<byte>, delivered: seq<byte>, counter: nat, cause: Option<Cause>)

  datatype Main = Waiting | GotFirst | ReturnedOnDone | ReturnedOnBoth

  /** signals is the fill of the two-slot channel errCh; closed: both connections have been closed. */
  datatype State = State(up: Copier, down: Copier, main: Main, signals: nat, closed: bool, done: bool)

  function NewCopier(source: seq<byte>): Copier {
    Copier(source, Head, [], [], 0, None)
  }

  function Init(fromClient: seq<byte>, fromUpstream: seq<byte>): State {
    State(NewCopier(fromClient), NewCopier(fromUpstream), Waiting, 0, false, false)
  }

  // ----- Steps of a copier -----

  /**
   * Read: up to a buffer of what the source sends, and perhaps an error: the end, once all has been read, or
   * a broken connection. A closed connection gives an error.
   */
  ghost predicate Reads(c: Copier, d: Copier, closed: bool, buf: seq<byte>, end: Option<Cause>) {
    && c.pc.Head? && |buf| <= BUFFER && c.read + buf <= c.source
    && end != Some(WriteBroke) && (end == Some(SourceEnded) ==> c.read + buf == c.source) && (closed ==> end.Some?)
    && d == c.(pc := if buf != [] then HasRead(buf, end.Some?) else if end.Some? then Sending else Head,
               read := c.read + buf, cause := end)
  }

  ghost predicate Counts(c: Copier, d: Copier) {
    && c.pc.HasRead?
    && d == c.(pc := Counted(c.pc.buf, c.pc.err), counter := c.counter + |c.pc.buf|)
  }

  /** Write: everything, or part of it and an error; a closed connection gives an error. */
  ghost predicate Writes(c: Copier, d: Copier, closed: bool, n: nat, ok: bool) {
    && c.pc.Counted? && n <= |c.pc.buf| && (ok ==> n == |c.pc.buf|) && (closed ==> !ok)
    && d == c.(pc := if !ok || c.pc.err then Sending else Head, delivered := c.delivered + c.pc.buf[..n],
               cause := if ok then c.cause else Some(WriteBroke))
  }

  ghost predicate Loops(c: Copier, d: Copier, closed: bool) {
    || (exists buf: seq<byte>, end: Option<Cause> :: Reads(c, d, closed, buf, end))
    || Counts(c, d)
    || (exists n: nat, ok: bool :: Writes(c, d, closed, n, ok))
  }

  // ----- Steps of the whole -----

  /** The send on errCh: enabled only while a slot is free. */
  ghost predicate Sends(c: Copier, d: Copier, s: State, t: State) {
    c.pc.Sending? && d == c.(pc := Exited) && s.signals < 2 && t.signals == s.signals + 1
  }

  ghost predicate UpSteps(s: State, t: State) {
    && t == s.(up := t.up, signals := t.signals)
    && ((Loops(s.up, t.up, s.closed) && t.signals == s.signals) || Sends(s.up, t.up, s, t))
  }

  ghost predicate DownSteps(s: State, t: State) {
    && t == s.(down := t.down, signals := t.signals)
    && ((Loops(s.down, t.down, s.closed) && t.signals == s.signals) || Sends(s.down, t.down, s, t))
  }

  ghost predicate MainSteps(s: State, t: State) {
    || (s.main.Waiting? && s.done && t == s.(main := ReturnedOnDone, closed := true))
    || (s.main.Waiting? && s.signals > 0 && t == s.(main := GotFirst, closed := true, signals := s.signals - 1))
    || (s.main.GotFirst? && s.signals > 0 && t == s.(main := ReturnedOnBoth, signals := s.signals - 1))
  }

  /** Someone closes the connection entry. */
  ghost predicate EntryCloses(s: State, t: State) {
    t == s.(done := true)
  }

  ghost predicate Next(s: State, t: State) {
    UpSteps(s, t) || DownSteps(s, t) || MainSteps(s, t) || EntryCloses(s, t)
  }

  // ----- The invariant -----

  /** A copier has left its loop. */
  predicate Left(c: Copier) {
    c.pc.Sending? || c.pc.Exited?
  }

  /** Why a copier is where it is: in its loop without an error, out of it with one. */
  predicate CauseSound(c: Copier) {
    && (c.cause == Some(SourceEnded) ==> c.read == c.source)
    && (Left(c) && c.cause != Some(WriteBroke) ==> c.delivered == c.read)
    && match c.pc {
         case Head => c.cause.None?
         case HasRead(_, err) => (c.cause.Some? <==> err) && c.cause != Some(WriteBroke)
         case Counted(_, err) => (c.cause.Some? <==> err) && c.cause != Some(WriteBroke)
         case _ => c.cause.Some?
       }
  }

  /** Delivered bytes are a prefix of the bytes read, and the counter is exact outside a read. */
  predicate Sound(c: Copier) {
    && CauseSound(c)
    && c.read <= c.source && c.delivered <= c.read
    && |c.read| - |c.delivered| <= BUFFER
    && match c.pc {
         case Head => c.delivered == c.read && c.counter == |c.read|
         case HasRead(buf, _) => c.read == c.delivered + buf && c.counter == |c.delivered|
         case Counted(buf, _) => c.read == c.delivered + buf && c.counter == |c.read|
         case _ => c.counter == |c.read|
       }
  }

  function Finished(c: Copier): nat {
    if c.pc.Exited? then 1 else 0
  }

  function Received(m: Main): nat {
    match m
    case GotFirst => 1
    case ReturnedOnBoth => 2
    case _ => 0
  }

  predicate Invariant(s: State) {
    && Sound(s.up) && Sound(s.down)
    && s.signals + Received(s.main) == Finished(s.up) + Finished(s.down)
    && (s.closed <==> !s.main.Waiting?)
    && (s.main.ReturnedOnDone? ==> s.done)
  }

  lemma LoopKeepsSound(c: Copier, d: Copier, closed: bool)
    requires Sound(c) && Loops(c, d, closed)
    ensures Sound(d) && Finished(d) == Finished(c) == 0
  {
  }

  lemma StepKeepsInvariant(s: State, t: State)
    requires Invariant(s) && Next(s, t)
    ensures Invariant(t)
  {
    if UpSteps(s, t) && Loops(s.up, t.up, s.closed) {
      LoopKeepsSound(s.up, t.up, s.closed);
    } else if DownSteps(s, t) && Loops(s.down, t.down, s.closed) {
      LoopKeepsSound(s.down, t.down, s.closed);
    }
  }

  // ----- Runs -----

  ghost predicate IsRun(run: seq<State>) {
    && run != [] && run[0] == Init(run[0].up.source, run[0].down.source)
    && forall i | 0 < i < |run| :: Next(run[i - 1], run[i])
  }

  lemma {:induction false} RunKeepsInvariant(run: seq<State>, i: nat)
    requires IsRun(run) && i < |run|
    ensures Invariant(run[i])
  {
    if i > 0 {
      hide Next, Invariant;
      RunKeepsInvariant(run, i - 1);
      StepKeepsInvariant(run[i - 1], run[i]);
    }
  }

  /** What the counters of a direction tell at any time. */
  predicate Accounted(c: Copier) {
    && c.delivered <= c.read
    && |c.delivered| <= c.counter <= |c.read|
    && c.counter - |c.delivered| <= 32768
    && (c.pc.Head? ==> c.delivered == c.read && c.counter == |c.read|)
    && (!c.pc.HasRead? ==> c.counter == |c.read|)
  }

  /**
   * In every state of every run, for both directions: what was delivered is a prefix of what was read,
   * the counter is exact up to one buffer; a pending send never blocks; pipe has returned only if both
   * copiers have finished or the entry was closed; and only then, or when a copier has finished, are the
   * connections closed.
   */
  lemma PipeIsSafe(run: seq<State>, i: nat)
    requires IsRun(run) && i < |run|
    ensures var s := run[i];
            && Accounted(s.up) && Accounted(s.down)
            && (s.up.pc.Sending? || s.down.pc.Sending? ==> s.signals < 2)
            && (s.main.ReturnedOnBoth? ==> s.up.pc.Exited? && s.down.pc.Exited?)
            && (s.main.ReturnedOnDone? ==> s.done)
            && (s.main.ReturnedOnDone? || s.main.ReturnedOnBoth? ==> s.closed)
            && (s.closed && !s.done ==> s.up.pc.Exited? || s.down.pc.Exited?)
  {
    RunKeepsInvariant(run, i);
  }

  /** Every way out of the loop: what had happened, and what has been delivered then. */
  predicate LeavesRightly(c: Copier) {
    && (Left(c) ==> c.cause.Some?)
    && (c.pc.Head? ==> c.cause.None?)
    && (Left(c) && c.cause == Some(SourceEnded) ==> c.delivered == c.source && c.counter == |c.source|)
    && (Left(c) && c.cause == Some(ReadBroke) ==> c.delivered == c.read)
  }

  /** A step only extends the streams, and a copier that has sent does nothing more: it sends once. */
  lemma StepMonotone(s: State, t: State)
    requires Next(s, t)
    ensures s.up.read <= t.up.read && s.up.delivered <= t.up.delivered
    ensures s.down.read <= t.down.read && s.down.delivered <= t.down.delivered
    ensures s.up.pc.Exited? ==> t.up == s.up
    ensures s.down.pc.Exited? ==> t.down == s.down
    ensures t.up.source == s.up.source && t.down.source == s.down.source
  {
  }

  /** Over a run the streams only grow, and a copier that has sent its signal does nothing more. */
  lemma {:induction false} RunMonotone(run: seq<State>, i: nat, j: nat)
    requires IsRun(run) && i <= j < |run|
    ensures run[i].up.read <= run[j].up.read && run[i].up.delivered <= run[j].up.delivered
    ensures run[i].down.read <= run[j].down.read && run[i].down.delivered <= run[j].down.delivered
    ensures run[i].up.pc.Exited? ==> run[j].up == run[i].up
    ensures run[i].down.pc.Exited? ==> run[j].down == run[i].down
    ensures run[j].up.source == run[i].up.source && run[j].down.source == run[i].down.source
    decreases j
  {
    hide Next;
    if i < j {
      RunMonotone(run, i, j - 1);
      StepMonotone(run[j - 1], run[j]);
    }
  }

  /**
   * In every state of every run a copier has left its loop only after a Read with an error or a failed Write,
   * and it stays in it otherwise. If it left because its source ended, everything the source sent has been
   * delivered and counted, however many buffers that took.
   */
  lemma DeliveryLaw(run: seq<State>, i: nat)
    requires IsRun(run) && i < |run|
    ensures LeavesRightly(run[i].up) && LeavesRightly(run[i].down)
    ensures run[i].up.source == run[0].up.source && run[i].down.source == run[0].down.source
  {
    RunKeepsInvariant(run, i);
    RunMonotone(run, 0, i);
  }

  /** A copier on open connections can take another buffer of what its source sends all the way, and read again. */
  lemma OneMoreBuffer(c: Copier, buf: seq<byte>) returns (d: Copier)
    requires Sound(c) && c.pc.Head? && 0 < |buf| <= 32768 && c.read + buf <= c.source
    ensures exists a, b :: Loops(c, a, false) && Loops(a, b, false) && Loops(b, d, false)
    ensures d.pc.Head? && d.delivered == c.delivered + buf && d.counter == c.counter + |buf|
  {
    var a := c.(pc := HasRead(buf, false), read := c.read + buf, cause := None);
    var b := a.(pc := Counted(buf, false), counter := a.counter + |buf|);
    d := b.(pc := Head, delivered := b.delivered + buf[..|buf|]);
    assert Reads(c, a, false, buf, None) && Counts(a, b) && Writes(b, d, false, |buf|, true);
    hide Reads, Writes;
    assert Loops(c, a, false) && Loops(a, b, false) && Loops(b, d, false);
  }

  /**
   * Nothing is assumed of the peers and the network: a read may return any part of what is sent, also together
   * with the error that ends it, and a write may fail after any part of its buffer.
   */
  lemma AnyReadAnyWrite(c: Copier, closed: bool, buf: seq<byte>, n: nat)
    ensures c.pc.Head? && 0 < |buf| <= 32768 && c.read + buf <= c.source ==>
              exists d :: Loops(c, d, closed) && d.read == c.read + buf && d.pc == HasRead(buf, true)
    ensures c.pc.Head? && c.read <= c.source ==> exists d :: Loops(c, d, closed) && d.read == c.read && Left(d)
    ensures c.pc.Counted? && n <= |c.pc.buf| ==>
              exists d :: Loops(c, d, closed) && d.delivered == c.delivered + c.pc.buf[..n] && Left(d)
  {
    if c.pc.Head? && c.read + buf <= c.source && 0 < |buf| <= BUFFER {
      var d := c.(pc := HasRead(buf, true), read := c.read + buf, cause := Some(ReadBroke));
      assert Reads(c, d, closed, buf, Some(ReadBroke));
    }
    if c.pc.Head? && c.read <= c.source {
      var d := c.(pc := Sending, cause := Some(ReadBroke));
      assert c.read + [] == c.read;
      assert Reads(c, d, closed, [], Some(ReadBroke));
    }
    if c.pc.Counted? && n <= |c.pc.buf| {
      var d := c.(pc := Sending, delivered := c.delivered + c.pc.buf[..n], cause := Some(WriteBroke));
      assert Writes(c, d, closed, n, false);
    }
  }

  // ----- Shutdown -----

  function StepsLeft(c: Copier): nat {
    match c.pc
    case Head => 4
    case HasRead(_, _) => 3
    case Counted(_, _) => 2
    case Sending => 1
    case Exited => 0
  }

  function ShutdownMeasure(s: State): nat {
    StepsLeft(s.up) + StepsLeft(s.down) + (if s.main.GotFirst? then 1 else 0)
  }

  /** Once the connections are closed, every step but further closes of the entry brings the end nearer. */
  lemma ShutdownEnds(s: State, t: State)
    requires Invariant(s) && s.closed && Next(s, t)
    ensures t.closed
    ensures EntryCloses(s, t) || ShutdownMeasure(t) < ShutdownMeasure(s)
    ensures ShutdownMeasure(s) <= 9
  {
  }

  /** The next state of a copier whose connections are closed. */
  lemma Onward(c: Copier, s: State) returns (d: Copier)
    requires !c.pc.Exited? && c.read <= c.source
    ensures if c.pc.Sending? then d == c.(pc := Exited) else Loops(c, d, true)
    ensures StepsLeft(d) < StepsLeft(c)
  {
    match c.pc {
      case Head =>
        d := c.(pc := Sending, read := c.read + [], cause := Some(ReadBroke));
        assert c.read + [] == c.read;
        assert Reads(c, d, true, [], Some(ReadBroke));
      case HasRead(buf, err) => d := c.(pc := Counted(buf, err), counter := c.counter + |buf|);
      case Counted(buf, _) =>
        d := c.(pc := Sending, delivered := c.delivered + buf[..0], cause := Some(WriteBroke));
        assert Writes(c, d, true, 0, false);
      case Sending => d := c.(pc := Exited);
    }
  }

  /** And until both copiers have exited and pipe has returned, some step is possible. */
  lemma ShutdownGoesOn(s: State)
    requires Invariant(s) && s.closed && ShutdownMeasure(s) > 0
    ensures exists t :: Next(s, t) && ShutdownMeasure(t) < ShutdownMeasure(s)
  {
    if s.main.GotFirst? && s.signals > 0 {
      var t := s.(main := ReturnedOnBoth, signals := s.signals - 1);
      assert MainSteps(s, t) && Next(s, t);
    } else if s.up.pc.Exited? {
      assert !s.down.pc.Exited?;
      var d := Onward(s.down, s);
      var t := s.(down := d, signals := if s.down.pc.Sending? then s.signals + 1 else s.signals);
      assert DownSteps(s, t) && Next(s, t);
    } else {
      var d := Onward(s.up, s);
      var t := s.(up := d, signals := if s.up.pc.Sending? then s.signals + 1 else s.signals);
      assert UpSteps(s, t) && Next(s, t);
    }
  }
}
