/** The requests that start, stop and configure the dynamic proxy loop (internal/api/api.go). */
module DynamicServer {

  /** The fields of a runner that the handlers write; cancelled is the state of its context. */
  datatype Flags = Flags(enabled: bool, running: bool, interval: int, autoPool: bool, cancelled: bool)

  /** A runner as start creates it. */
  function NewFlags(interval: int): (f: Flags)
    ensures f.enabled && !f.running && !f.autoPool && !f.cancelled
    ensures f.interval == if interval >= 10 then interval else 30
  {
    Flags(true, false, if interval < 10 then 30 else interval, false, false)
  }

  function Cancelled(f: Flags): (g: Flags)
    ensures !g.enabled && !g.running && g.cancelled && g.interval == f.interval && g.autoPool == f.autoPool
  {
    f.(enabled := false, running := false, cancelled := true)
  }

  class DynamicRunner {
    var enabled: bool
    var running: bool
    var interval: int
    var autoPool: bool
    var cancelled: bool

    constructor (interval: int)
      ensures View() == Flags(true, false, interval, false, false)
    {
      enabled, running, autoPool, cancelled := true, false, false, false;
      this.interval := interval;
    }

    function View(): Flags
      reads this
    {
      Flags(enabled, running, interval, autoPool, cancelled)
    }

    method Cancel()
      modifies this
      ensures View() == Cancelled(old(View()))
    {
      cancelled := true;
      enabled := false;
      running := false;
    }
  }

  class Server {
    var dynamic: DynamicRunner?

    constructor ()
      ensures dynamic == null
    {
      dynamic := null;
    }

    /** Action "start": replaces the current runner, cancelling it if it is still enabled. */
    method Start(interval: int, freeProxy: bool) returns (ok: bool)
      modifies this, dynamic
      ensures ok == freeProxy
      ensures !ok ==> dynamic == old(dynamic)
      ensures ok ==> dynamic != null && fresh(dynamic) && dynamic.View() == NewFlags(interval)
      ensures ok ==> dynamic.enabled && !dynamic.running && !dynamic.autoPool && !dynamic.cancelled
      ensures ok ==> dynamic.interval == if interval >= 10 then interval else 30
      ensures var d := old(dynamic);
              d != null ==> d.View() == if ok && old(d.enabled) then Cancelled(old(d.View())) else old(d.View())
    {
      if !freeProxy {
        return false;
      }
      var wait := interval;
      if wait < 10 {
        wait := 30;
      }
      if dynamic != null && dynamic.enabled {
        dynamic.Cancel();
      }
      dynamic := new DynamicRunner(wait);
      return true;
    }

    /** Action "stop". */
    method Stop()
      modifies dynamic
      ensures dynamic != null ==> dynamic.View() == Cancelled(old(dynamic.View()))
    {
      if dynamic != null {
        dynamic.Cancel();
      }
    }

    method SetAutoPool(on: bool)
      modifies dynamic
      ensures dynamic != null ==> dynamic.View() == old(dynamic.View()).(autoPool := on)
    {
      if dynamic != null {
        dynamic.autoPool := on;
      }
    }
  }
}
