/** EthercatDevice: lifecycle hooks and the PDO buffers exchanged with the bus. */
module Devices {
  import opened PdoRegions

  datatype Hook = OnStartup | OnPdoConfigured | OnPreActivate | OnPostActivate | OnPreShutdown | OnPostShutdown

  // PdoOutsideMap: the source copies from or to memory that is not part of the IO map.
  datatype PdoStatus = PdoOk | PdoNotConfigured | PdoSizeMismatch | NotOnBus | PdoOutsideMap

  // vector::resize(n, 0)
  function Resized(v: Bytes, n: nat): (r: Bytes)
    ensures |r| == n
    ensures forall i | 0 <= i < n :: r[i] == if i < |v| then v[i] else 0
  {
    if n <= |v| then v[..n] else v + seq(n - |v|, i => 0)
  }

  class EthercatDevice {
    const id: nat
    var pdoInitialized: bool
    var rxPdo: Bytes              // master to device
    var txPdo: Bytes              // device to master
    var rxLastWrite: int
    var txLastRead: int

    constructor (id: nat)
      ensures this.id == id && !pdoInitialized && rxPdo == [] && txPdo == []
    {
      this.id := id;
      pdoInitialized, rxPdo, txPdo, rxLastWrite, txLastRead := false, [], [], 0, 0;
    }

    // The user's hook that ends this method is recorded by the backend.
    method PdoConfigured(rxSize: nat, txSize: nat, now: int)
      modifies this
      ensures pdoInitialized && rxPdo == Resized(old(rxPdo), rxSize) && txPdo == Resized(old(txPdo), txSize)
      ensures rxLastWrite == now && txLastRead == now
    {
      rxPdo := Resized(rxPdo, rxSize);
      rxLastWrite := now;
      txPdo := Resized(txPdo, txSize);
      txLastRead := now;
      pdoInitialized := true;
    }

    method SetGenericRxPdo(rx: Bytes) returns (r: PdoStatus)
      modifies this`rxPdo
      ensures r == PdoOk <==> pdoInitialized && |rx| == |old(rxPdo)|
      ensures r == PdoNotConfigured <==> !pdoInitialized
      ensures rxPdo == if r == PdoOk then rx else old(rxPdo)
    {
      if !pdoInitialized {
        return PdoNotConfigured;
      }
      if |rx| != |rxPdo| {
        return PdoSizeMismatch;
      }
      rxPdo := rx;
      return PdoOk;
    }

    // `size` is the size of the caller's buffer.
    method GetGenericTxPdo(size: nat) returns (r: PdoStatus, out: Bytes)
      ensures r == PdoOk <==> pdoInitialized && size == |txPdo|
      ensures r == PdoNotConfigured <==> !pdoInitialized
      ensures out == if r == PdoOk then txPdo else []
    {
      if !pdoInitialized {
        return PdoNotConfigured, [];
      }
      if size != |txPdo| {
        return PdoSizeMismatch, [];
      }
      return PdoOk, txPdo;
    }
  }
}
