/**
 * The search for a free port (`findClosestOpenPort` and `isPortTaken` of
 * src/utils.ts and dist/utils.js). Binding a test listener is an oracle: for
 * each port it tells whether listening succeeded, failed with an error event,
 * or threw before any event.
 */
module Ports {
  import opened Outcomes

  datatype Probe =
    | Listening                     // the test server reached 'listening' and closed again
    | ErrorEvent(code: string)      // the test server emitted 'error' with this code
    | ListenThrew                   // `listen` threw, so the promise was rejected

  /** isPortTaken: `Some(taken)` when the promise resolves, `None` when it is rejected. */
  function IsPortTaken(probe: Probe): (r: Option<bool>)
    ensures r == None <==> probe == ListenThrew
    ensures r == Some(true) <==> probe.ErrorEvent?
  {
    match probe
    case Listening => Some(false)
    case ErrorEvent(code) =>
      // the first 'error' listener resolves with true on either branch, so the
      // later rejecting listener finds the promise settled already; the two
      // identical branches are the source's own, not a slip of the model
      if code != "EADDRINUSE" then Some(true) else Some(true)
    case ListenThrew => None
  }

  datatype Search =
    | Found(port: int)            // the promise resolves with this port
    | Rejected(port: int)         // checking this port rejected, and so does the search
    | OutOfFuel                   // every port of the bounded range was taken

  predicate Taken(probe: int -> Probe, p: int) {
    IsPortTaken(probe(p)) == Some(true)
  }

  /**
   * findClosestOpenPort: `t(port)` checks `port` and recurses on `port + 1` while
   * it is taken. `fuel` bounds how many ports are tried.
   */
  function FindClosestOpenPort(probe: int -> Probe, port: int, fuel: nat): (r: Search)
    ensures r.Found? ==> port <= r.port < port + fuel && IsPortTaken(probe(r.port)) == Some(false)
    ensures r.Rejected? ==> port <= r.port < port + fuel && probe(r.port) == ListenThrew
    ensures !r.OutOfFuel? ==> forall q :: port <= q < r.port ==> Taken(probe, q)
    ensures r.OutOfFuel? ==> forall q :: port <= q < port + fuel ==> Taken(probe, q)
    decreases fuel
  {
    if fuel == 0 then OutOfFuel
    else match IsPortTaken(probe(port))
      case None => Rejected(port)
      case Some(isTaken) =>
        if !isTaken then Found(port) else FindClosestOpenPort(probe, port + 1, fuel - 1)
  }

  // ---------------------------------------------------------------------------
  // Properties

  /** Every error event counts as taken, whatever its code. */
  lemma EveryErrorIsTaken(probe: int -> Probe, p: int)
    requires probe(p).ErrorEvent?
    ensures Taken(probe, p)
  {
  }

  /** A free start port is returned unchanged. */
  lemma FreeStartReturned(probe: int -> Probe, port: int, fuel: nat)
    requires fuel > 0 && probe(port) == Listening
    ensures FindClosestOpenPort(probe, port, fuel) == Found(port)
  {
  }

  /** A search that ends within some fuel ends the same way with more. */
  lemma {:induction false} MoreFuelSameResult(probe: int -> Probe, port: int, fuel: nat, more: nat)
    requires fuel <= more
    requires !FindClosestOpenPort(probe, port, fuel).OutOfFuel?
    ensures FindClosestOpenPort(probe, port, more) == FindClosestOpenPort(probe, port, fuel)
    decreases fuel
  {
    if IsPortTaken(probe(port)) == Some(true) {
      MoreFuelSameResult(probe, port + 1, fuel - 1, more - 1);
    }
  }

  /**
   * The port found is the least free one at or above the start: any port that is
   * free, with every port below it taken, is the one found.
   */
  lemma {:induction false} FoundIsLeastFree(probe: int -> Probe, port: int, p: int)
    requires port <= p && probe(p) == Listening
    requires forall q :: port <= q < p ==> probe(q).ErrorEvent?
    ensures FindClosestOpenPort(probe, port, p - port + 1) == Found(p)
    decreases p - port
  {
    if port < p {
      FoundIsLeastFree(probe, port + 1, p);
    }
  }
}
