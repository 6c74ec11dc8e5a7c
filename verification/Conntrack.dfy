/** The connection registry (internal/conntrack/conn.go): closing an entry once, and the manager's map. */
module Conntrack {

  // ----- Close under concurrency -----

  /** A goroutine calling Entry.Close: before the compare-and-swap, having won it, finished. */
  datatype Caller = Calling | Won | Returned

  /** flag is entry.closed, channelClosed the state of entry.cancel; panicked: the channel was closed twice. */
  datatype CloseState = CloseState(flag: bool, channelClosed: bool, panicked: bool, callers: seq<Caller>)

  predicate Swaps(s: CloseState, t: CloseState, i: nat) {
    && i < |s.callers| && s.callers[i].Calling?
    && t == if s.flag then s.(callers := s.callers[i := Returned]) else s.(flag := true, callers := s.callers[i := Won])
  }

  predicate ClosesChannel(s: CloseState, t: CloseState, i: nat) {
    && i < |s.callers| && s.callers[i].Won?
    && t == s.(channelClosed := true, panicked := s.panicked || s.channelClosed, callers := s.callers[i := Returned])
  }

  /** A new caller arrives. */
  predicate Arrives(s: CloseState, t: CloseState) {
    t == s.(callers := s.callers + [Calling])
  }

  /** Closing a closed channel panics, so whoever is about to close must find it open. */
  lemma SecondClosePanics(s: CloseState, t: CloseState, i: nat)
    requires ClosesChannel(s, t, i)
    ensures t.channelClosed && (t.panicked <==> s.panicked || s.channelClosed)
  {
  }

  ghost predicate CloseNext(s: CloseState, t: CloseState) {
    (exists i: nat :: Swaps(s, t, i)) || (exists i: nat :: ClosesChannel(s, t, i)) || Arrives(s, t)
  }

  /** At most one caller has won; the channel is closed exactly when the winner has gone on. */
  ghost predicate CloseInvariant(s: CloseState) {
    && !s.panicked
    && (forall i, j | 0 <= i < j < |s.callers| :: !(s.callers[i].Won? && s.callers[j].Won?))
    && (s.flag <==> s.channelClosed || Won in s.callers)
    && !(s.channelClosed && Won in s.callers)
    && (Returned in s.callers ==> s.flag)
  }

  /** Caller i takes a step, the others stay where they are. */
  lemma CallerStepKeeps(s: CloseState, t: CloseState, i: nat)
    requires CloseInvariant(s) && (Swaps(s, t, i) || ClosesChannel(s, t, i))
    ensures CloseInvariant(t) && (s.flag ==> t.flag)
  {
    assert i < |s.callers| == |t.callers|;
    assert t.callers[i] in t.callers && s.callers[i] in s.callers;
    assert forall j | 0 <= j < |s.callers| && j != i :: t.callers[j] == s.callers[j];
    if Won in t.callers && !t.callers[i].Won? {
      var j :| 0 <= j < |t.callers| && t.callers[j].Won?;
      assert s.callers[j] == Won;
    }
  }

  lemma CloseStepKeeps(s: CloseState, t: CloseState)
    requires CloseInvariant(s) && CloseNext(s, t)
    ensures CloseInvariant(t) && (s.flag ==> t.flag)
  {
    if Arrives(s, t) {
      assert forall c | c in t.callers :: c in s.callers || c.Calling?;
      assert forall c | c in s.callers :: c in t.callers;
    } else if i: nat :| Swaps(s, t, i) {
      CallerStepKeeps(s, t, i);
    } else if i: nat :| ClosesChannel(s, t, i) {
      CallerStepKeeps(s, t, i);
    }
  }

  ghost predicate IsCloseRun(run: seq<CloseState>) {
    && run != [] && run[0] == CloseState(false, false, false, [])
    && forall i | 0 < i < |run| :: CloseNext(run[i - 1], run[i])
  }

  /**
   * However many goroutines call Close, the channel is closed at most once, and once all have returned it
   * is closed.
   */
  lemma {:induction false} CloseIsSafe(run: seq<CloseState>, i: nat)
    requires IsCloseRun(run) && i < |run|
    ensures CloseInvariant(run[i])
    ensures !run[i].panicked
    ensures forall c | c in run[i].callers && c.Won? :: !run[i].channelClosed
    ensures run[i].callers != [] && (forall c | c in run[i].callers :: c.Returned?) ==> run[i].channelClosed
  {
    if i > 0 {
      CloseIsSafe(run, i - 1);
      CloseStepKeeps(run[i - 1], run[i]);
    }
    assert run[i].callers != [] ==> run[i].callers[0] in run[i].callers;
  }

  // ----- The registry -----

  class Entry {
    const id: string
    /** The cancel channel: made by Register, closed by Close. */
    var made: bool
    var cancelled: bool
    var closed: bool
    var upload: int
    var download: int

    constructor (id: string)
      ensures this.id == id && !made && !closed && !cancelled && upload == 0 && download == 0
    {
      this.id := id;
      made, cancelled, closed, upload, download := false, false, false, 0, 0;
    }

    /** The channel is closed exactly when Close has been called. */
    ghost predicate Valid()
      reads this
    {
      made && (cancelled <==> closed)
    }

    method Close()
      requires Valid()
      modifies this`closed, this`cancelled
      ensures Valid() && closed
    {
      if !closed {
        closed := true;
        cancelled := true;
      }
    }
  }

  class Manager {
    var entries: map<string, Entry>

    constructor ()
      ensures Valid() && entries == map[]
    {
      entries := map[];
    }

    /** Every registered entry is under its own id and ready to be closed. */
    ghost predicate Valid()
      reads this, entries.Values
    {
      forall id | id in entries :: entries[id].id == id && entries[id].Valid()
    }

    method Register(e: Entry)
      requires Valid() && (e.made ==> e.Valid()) && (!e.made ==> !e.closed)
      modifies this`entries, e`made, e`cancelled
      ensures Valid() && entries == old(entries)[e.id := e]
      ensures e.closed == old(e.closed)
    {
      if !e.made {
        e.made := true;
        e.cancelled := false;
      }
      entries := entries[e.id := e];
    }

    method Unregister(id: string)
      requires Valid()
      modifies this`entries
      ensures Valid() && entries == old(entries) - {id}
    {
      entries := entries - {id};
    }

    /** CloseAll closes every registered entry and no other; the registry itself stays as it is. */
    method CloseAll()
      requires Valid()
      modifies (set e | e in entries.Values)`closed, (set e | e in entries.Values)`cancelled
      ensures Valid() && forall id | id in entries :: entries[id].closed
    {
      var left := entries.Keys;
      while left != {}
        invariant left <= entries.Keys && Valid()
        invariant forall id | id in entries && id !in left :: entries[id].closed
        decreases |left|
      {
        var id :| id in left;
        assert entries[id] in entries.Values;
        entries[id].Close();
        left := left - {id};
      }
    }
  }
}
