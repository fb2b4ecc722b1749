/** The one embedded xray core and its two users (internal/exitprobe/exitprobe.go,
    internal/exitprobe/gateway.go). The slot is a channel of capacity 1: a receive
    takes the token, a send on a full channel would block for ever. */
module XrayCore {
  /** How a start ends: the wait for the slot is cancelled, the core does not come up, or
      it runs. */
  datatype Outcome = Cancelled | Broken | Started

  /** A core user beside the slot: the tokens in the channel and the user's two fields. */
  datatype Core = Core(free: nat, running: bool, ownsCore: bool) {
    /** Tokens in the channel plus tokens held by the user. */
    function Tokens(): nat { free + if ownsCore then 1 else 0 }
  }

  /** `ExitProber.Stop` and `FetchGateway.Close`. */
  function Closed(c: Core): Core {
    Core(if c.ownsCore then c.free + 1 else c.free, false, false)
  }

  /** `StartWithProxiesContext`, which gives back a core it is still running first. */
  function Restarted(c: Core, outcome: Outcome): Core
    requires outcome.Started? ==> (if c.running then Closed(c) else c).free > 0
  {
    var c := if c.running then Closed(c) else c;
    if outcome.Started? then Core(c.free - 1, true, true) else c
  }

  /** A user runs a core exactly while it owns the slot. */
  predicate Legal(c: Core) { c.running == c.ownsCore }

  /** Starting in any way, stopping, and stopping again conserve the tokens, so no token
      is ever returned twice; a cancelled or broken restart leaves nothing running. */
  lemma StartStopConserve(c: Core, outcome: Outcome)
    requires Legal(c) && (outcome.Started? ==> c.Tokens() > 0)
    ensures var r := Restarted(c, outcome);
            && Legal(r) && r.Tokens() == c.Tokens() && r.running == outcome.Started?
            && Legal(Closed(r)) && Closed(r).Tokens() == c.Tokens()
            && Closed(Closed(r)) == Closed(r)
            && Closed(r) == Core(c.Tokens(), false, false)
  {}

  class Slot {
    var free: nat

    constructor ()
      ensures free == 1
    {
      free := 1;
    }

    method Acquire()
      requires free > 0
      modifies this
      ensures free == old(free) - 1
    {
      free := free - 1;
    }

    /** The caller must know that the channel is empty. */
    method Release()
      requires free == 0
      modifies this
      ensures free == 1
    {
      free := free + 1;
    }
  }

  class ExitProber {
    const slot: Slot
    var running: bool
    var ownsCore: bool

    constructor (slot: Slot)
      ensures this.slot == slot && !running && !ownsCore
    {
      this.slot := slot;
      running, ownsCore := false, false;
    }

    function View(): Core
      reads this, slot
    {
      Core(slot.free, running, ownsCore)
    }

    method StartWithProxiesContext(outcome: Outcome) returns (ok: bool)
      requires Legal(View()) && View().Tokens() <= 1
      requires !outcome.Cancelled? ==> View().Tokens() == 1
      modifies this, slot
      ensures View() == Restarted(old(View()), outcome) && ok == outcome.Started?
    {
      if running {
        running := false;
        if ownsCore {
          ownsCore := false;
          slot.Release();
        }
      }
      if outcome.Cancelled? { return false; }
      slot.Acquire();
      var started := false;
      if outcome.Started? {
        running := true;
        ownsCore := true;
        started := true;
      }
      if !started { slot.Release(); }
      return started;
    }

    method Stop()
      requires View().Tokens() <= 1
      modifies this, slot
      ensures View() == Closed(old(View()))
    {
      if running { running := false; }
      if ownsCore {
        ownsCore := false;
        slot.Release();
      }
    }
  }

  class FetchGateway {
    const slot: Slot
    var running: bool
    var ownsCore: bool

    function View(): Core
      reads this, slot
    {
      Core(slot.free, running, ownsCore)
    }

    /** A successful `StartFetchGatewayContext`; on failure there is no gateway. */
    constructor (slot: Slot)
      requires slot.free == 1
      modifies slot
      ensures this.slot == slot && View() == Restarted(Core(1, false, false), Started)
    {
      this.slot := slot;
      running, ownsCore := true, true;
      new;
      slot.Acquire();
    }

    /** Called once explicitly and once more from a deferred cleanup. */
    method Close()
      requires View().Tokens() <= 1
      modifies this, slot
      ensures View() == Closed(old(View()))
    {
      if running { running := false; }
      if ownsCore {
        ownsCore := false;
        slot.Release();
      }
    }
  }

  /** `RunEnrichmentChecks` closes its gateway twice; the slot gains one token. */
  method CloseTwice(gateway: FetchGateway)
    requires gateway.View() == Core(0, true, true)
    modifies gateway, gateway.slot
    ensures gateway.View() == Core(1, false, false)
  {
    gateway.Close();
    gateway.Close();
  }
}
