/** The seven bus states and their order. */
module BusStates {
  datatype BusState = PreInit | Initialized | Configured | Activated | Operational | ShuttingDown | Shutdown

  function Rank(s: BusState): nat {
    match s
    case PreInit => 0
    case Initialized => 1
    case Configured => 2
    case Activated => 3
    case Operational => 4
    case ShuttingDown => 5
    case Shutdown => 6
  }
}
