/** Mailbox events: how SOEM error records and failed accesses are turned into them. */
module MailboxEvents {
  import opened Options

  type uint8 = x: int | 0 <= x < 0x100
  type uint16 = x: int | 0 <= x < 0x1_0000
  type uint32 = x: int | 0 <= x < 0x1_0000_0000
  type int32 = x: int | -0x8000_0000 <= x < 0x8000_0000

  // The named members of SOEM's ec_err_type; its numbering is not part of this model.
  datatype ErrorType =
    | SdoError | SdoInfoError | EmergencyError | SoeError | MbxError | PacketError
    | FoeError | FoeBufferTooSmall | FoePacketNumber | FoeFileNotFound
    | EoeInvalidRxData | OtherError

  datatype RawError = RawError(
    slave: uint16, etype: ErrorType, index: uint16, subIdx: uint8, abortCode: int32,
    errorCode: uint16, errorReg: uint8, b1: uint8, w1: uint16, w2: uint16)

  datatype Protocol = UnknownProtocol | CoE | FoE | SoE | EoE | VoE

  datatype Kind =
    UnknownKind | Abort | Emergency | ProtocolViolation | MailboxLayerError | Timeout | BufferTooSmall | NotFound

  datatype Severity = Info | Warning | Error

  datatype EmergencyInfo = EmergencyInfo(code: uint16, errorRegister: uint8, data: seq<uint8>) {
    predicate IsReset() { code == 0 }
  }

  // Time stamp and description text are left out.
  datatype MailboxEvent = MailboxEvent(
    deviceId: uint16, protocol: Protocol, kind: Kind, severity: Severity, code: uint32,
    index: Option<uint16>, subIndex: Option<uint8>, emergency: Option<EmergencyInfo>)

  // The access in flight.
  datatype Access = Access(deviceId: uint16, protocol: Protocol, index: Option<uint16>, subIndex: Option<uint8>)

  // static_cast<uint32_t> of a signed 32-bit value
  function ToUint32(x: int): uint32 { x % 0x1_0000_0000 }

  function EmergencyOf(e: RawError): EmergencyInfo {
    EmergencyInfo(e.errorCode, e.errorReg, [e.b1, e.w1 % 0x100, e.w1 / 0x100, e.w2 % 0x100, e.w2 / 0x100])
  }

  function ProtocolOf(t: ErrorType): Protocol {
    match t
    case SdoError | SdoInfoError | EmergencyError => CoE
    case SoeError => SoE
    case FoeError | FoeBufferTooSmall | FoePacketNumber | FoeFileNotFound => FoE
    case EoeInvalidRxData => EoE
    case _ => UnknownProtocol
  }

  function KindOf(t: ErrorType): Kind {
    match t
    case SdoError | SdoInfoError | SoeError => Abort
    case EmergencyError => Emergency
    case MbxError => MailboxLayerError
    case PacketError => ProtocolViolation
    case _ => UnknownKind
  }

  // The event a SOEM error record denotes.
  function EventOf(e: RawError): MailboxEvent {
    var addressed := e.etype in {SdoError, SdoInfoError, SoeError};
    MailboxEvent(
      e.slave, ProtocolOf(e.etype), KindOf(e.etype),
      if e.etype == EmergencyError && e.errorCode == 0 then Info else Error,
      match e.etype
      case SdoError | SdoInfoError => ToUint32(e.abortCode)
      case EmergencyError | SoeError | MbxError | PacketError => e.errorCode
      case _ => 0,
      if addressed then Some(e.index) else None,
      if addressed then Some(e.subIdx) else None,
      if e.etype == EmergencyError then Some(EmergencyOf(e)) else None)
  }

  // What each kind of record becomes, field by field.
  lemma EventMeaning(e: RawError)
    ensures var (ev, t) := (EventOf(e), e.etype);
            && ev.deviceId == e.slave
            && (ev.kind == Abort <==> t.SdoError? || t.SdoInfoError? || t.SoeError?)
            && (ev.kind == Emergency <==> t.EmergencyError?)
            && (ev.kind == MailboxLayerError <==> t.MbxError?)
            && (ev.kind == ProtocolViolation <==> t.PacketError?)
            && ev.kind != Timeout && ev.kind != NotFound && ev.kind != BufferTooSmall
    ensures var (ev, t) := (EventOf(e), e.etype);
            && (ev.protocol == CoE <==> t.SdoError? || t.SdoInfoError? || t.EmergencyError?)
            && (ev.protocol == SoE <==> t.SoeError?)
            && (ev.protocol == FoE <==> t.FoeError? || t.FoeBufferTooSmall? || t.FoePacketNumber? || t.FoeFileNotFound?)
            && (ev.protocol == EoE <==> t.EoeInvalidRxData?) && ev.protocol != VoE
    ensures var ev := EventOf(e);
            && (ev.severity == Info <==> e.etype.EmergencyError? && e.errorCode == 0) && ev.severity != Warning
            && (ev.kind == Abort ==> ev.index == Some(e.index) && ev.subIndex == Some(e.subIdx))
            && (ev.kind != Abort ==> ev.index == None && ev.subIndex == None)
  {
  }

  // The code is the abort code's 32 bits, or the error code; an emergency's bytes are all kept, low
  // byte first.
  lemma CodesAreKept(e: RawError)
    ensures var (ev, t) := (EventOf(e), e.etype);
            && (t.SdoError? || t.SdoInfoError? ==>
                  ev.code == if e.abortCode < 0 then e.abortCode + 0x1_0000_0000 else e.abortCode)
            && (t.EmergencyError? || t.SoeError? || t.MbxError? || t.PacketError? ==> ev.code == e.errorCode)
            && (ev.kind == UnknownKind ==> ev.code == 0)
            && (ev.emergency.Some? <==> t.EmergencyError?)
    ensures EventOf(e).emergency.Some? ==>
              var m := EventOf(e).emergency.value;
              && m.code == e.errorCode && m.errorRegister == e.errorReg
              && |m.data| == 5 && m.data[0] == e.b1
              && m.data[1] as int + 0x100 * (m.data[2] as int) == e.w1
              && m.data[3] as int + 0x100 * (m.data[4] as int) == e.w2
  {
  }

  // make_mailbox_event: the record is filled field by field.
  method MakeMailboxEvent(e: RawError) returns (ev: MailboxEvent)
    ensures ev == EventOf(e)
  {
    ev := MailboxEvent(e.slave, UnknownProtocol, UnknownKind, Error, 0, None, None, None);
    match e.etype {
      case SdoError | SdoInfoError =>
        ev := ev.(protocol := CoE, kind := Abort, code := ToUint32(e.abortCode));
        ev := ev.(index := Some(e.index), subIndex := Some(e.subIdx));
      case EmergencyError =>
        var emcy := EmergencyOf(e);
        ev := ev.(protocol := CoE, kind := Emergency, code := e.errorCode);
        ev := ev.(severity := if emcy.IsReset() then Info else Error, emergency := Some(emcy));
      case SoeError =>
        ev := ev.(protocol := SoE, kind := Abort, code := e.errorCode);
        ev := ev.(index := Some(e.index), subIndex := Some(e.subIdx));
      case MbxError =>
        ev := ev.(kind := MailboxLayerError, code := e.errorCode);
      case PacketError =>
        ev := ev.(kind := ProtocolViolation, code := e.errorCode);
      case FoeError | FoeBufferTooSmall | FoePacketNumber | FoeFileNotFound =>
        ev := ev.(protocol := FoE, kind := UnknownKind);
      case EoeInvalidRxData =>
        ev := ev.(protocol := EoE, kind := UnknownKind);
      case OtherError =>
        ev := ev.(kind := UnknownKind);
    }
  }

  function TimeoutEvent(acc: Access): MailboxEvent {
    MailboxEvent(acc.deviceId, acc.protocol, Timeout, Error, 0, acc.index, acc.subIndex, None)
  }

  // It says which access got no answer.
  lemma TimeoutMeaning(acc: Access)
    ensures var ev := TimeoutEvent(acc);
            && ev.kind == Timeout && ev.severity == Error && ev.code == 0 && ev.emergency == None
            && ev.deviceId == acc.deviceId && ev.protocol == acc.protocol
            && ev.index == acc.index && ev.subIndex == acc.subIndex
  {
  }

  // The kind of an FoE failure, by the member of ec_err_type whose number was returned negated.
  function FoeKind(t: ErrorType): Kind {
    match t
    case FoeFileNotFound => NotFound
    case FoeBufferTooSmall => BufferTooSmall
    case FoePacketNumber | PacketError => ProtocolViolation
    case FoeError => Abort
    case _ => UnknownKind
  }

  // `types` is the numbering of ec_err_type.
  function FoeEvent(deviceId: uint16, wkc: int, types: int -> ErrorType): MailboxEvent {
    if wkc == 0 then MailboxEvent(deviceId, FoE, Timeout, Error, 0, None, None, None)
    else
      var t := types(-wkc);
      MailboxEvent(deviceId, if t == EoeInvalidRxData then EoE else FoE, FoeKind(t), Error, ToUint32(-wkc),
                   None, None, None)
  }

  // 0 numbers an error type of its own, and no two numbers name the same type.
  ghost predicate IsNumbering(types: int -> ErrorType) {
    types(0) == SdoError && forall i, j :: types(i) == types(j) != OtherError ==> i == j
  }

  // The value returned by ecx_FOEread/write decides the kind, and these kinds identify the value.
  lemma FoeKindDecided(deviceId: uint16, wkc: int, types: int -> ErrorType, n: int)
    requires IsNumbering(types)
    ensures FoeEvent(deviceId, wkc, types).kind == Timeout <==> wkc == 0
    ensures types(n) == FoeFileNotFound ==> (FoeEvent(deviceId, wkc, types).kind == NotFound <==> wkc == -n)
    ensures types(n) == FoeBufferTooSmall ==> (FoeEvent(deviceId, wkc, types).kind == BufferTooSmall <==> wkc == -n)
    ensures types(n) == FoeError ==> (FoeEvent(deviceId, wkc, types).kind == Abort <==> wkc == -n)
  {
    assert types(-wkc) == types(n) != OtherError ==> -wkc == n;
  }

  // The rest of the record of a failed FoE transfer, for the range of return values SOEM has.
  lemma FoeMeaning(deviceId: uint16, wkc: int, types: int -> ErrorType)
    requires -0x8000_0000 < wkc <= 0
    ensures var (ev, t) := (FoeEvent(deviceId, wkc, types), types(-wkc));
            && ev.deviceId == deviceId && ev.severity == Error && ev.code == -wkc
            && ev.index == None && ev.subIndex == None && ev.emergency == None
            && ev.protocol == (if wkc < 0 && t.EoeInvalidRxData? then EoE else FoE)
            && (ev.kind == ProtocolViolation <==> wkc < 0 && (t.FoePacketNumber? || t.PacketError?))
            && (ev.kind == NotFound <==> wkc < 0 && t.FoeFileNotFound?)
            && (ev.kind == BufferTooSmall <==> wkc < 0 && t.FoeBufferTooSmall?)
            && (ev.kind == Abort <==> wkc < 0 && t.FoeError?)
  {
  }

  // make_timeout_event
  method MakeTimeoutEvent(acc: Access) returns (ev: MailboxEvent)
    ensures ev == TimeoutEvent(acc)
  {
    ev := MailboxEvent(acc.deviceId, UnknownProtocol, UnknownKind, Error, 0, None, None, None);
    ev := ev.(protocol := acc.protocol, kind := Timeout);
    ev := ev.(index := acc.index, subIndex := acc.subIndex);
  }

  // make_foe_event: 0 is tested before negating, because it also numbers an error type.
  method MakeFoeEvent(deviceId: uint16, wkc: int, types: int -> ErrorType) returns (ev: MailboxEvent)
    ensures ev == FoeEvent(deviceId, wkc, types)
  {
    ev := MailboxEvent(deviceId, FoE, UnknownKind, Error, 0, None, None, None);
    if wkc == 0 {
      ev := ev.(kind := Timeout);
      return;
    }
    ev := ev.(code := ToUint32(-wkc));
    match types(-wkc) {
      case FoeFileNotFound => ev := ev.(kind := NotFound);
      case FoeBufferTooSmall => ev := ev.(kind := BufferTooSmall);
      case FoePacketNumber | PacketError => ev := ev.(kind := ProtocolViolation);
      case FoeError => ev := ev.(kind := Abort);
      case EoeInvalidRxData => ev := ev.(protocol := EoE);
      case _ =>
    }
  }

  // An event belongs to an access if it is solicited, from its device, and contradicts it on no
  // field that both carry.
  predicate BelongsTo(ev: MailboxEvent, acc: Access) {
    && ev.kind != Emergency && ev.deviceId == acc.deviceId
    && (ev.protocol == UnknownProtocol || ev.protocol == acc.protocol)
    && (ev.index == None || acc.index == None || ev.index == acc.index)
    && (ev.subIndex == None || acc.subIndex == None || ev.subIndex == acc.subIndex)
  }

  // The rule field by field: an emergency never belongs to an access; each field that both carry must
  // agree, and a field that one of them lacks does not matter.
  lemma BelongingByField(ev: MailboxEvent, acc: Access)
    ensures ev.kind == Emergency || ev.deviceId != acc.deviceId ==> !BelongsTo(ev, acc)
    ensures ev.protocol != UnknownProtocol && ev.protocol != acc.protocol ==> !BelongsTo(ev, acc)
    ensures ev.index.Some? && acc.index.Some? && ev.index.value != acc.index.value ==> !BelongsTo(ev, acc)
    ensures ev.subIndex.Some? && acc.subIndex.Some? && ev.subIndex.value != acc.subIndex.value ==> !BelongsTo(ev, acc)
    ensures ev.kind != Emergency && ev.deviceId == acc.deviceId && ev.protocol in {UnknownProtocol, acc.protocol}
            && !(ev.index.Some? && acc.index.Some? && ev.index.value != acc.index.value)
            && !(ev.subIndex.Some? && acc.subIndex.Some? && ev.subIndex.value != acc.subIndex.value)
            ==> BelongsTo(ev, acc)
  {
  }

  // Severity alone decides about failure: everything but an emergency is an Error.
  lemma SolicitedIsError(e: RawError, acc: Access)
    requires BelongsTo(EventOf(e), acc)
    ensures EventOf(e).severity == Error && EventOf(e).emergency == None
  {
  }

  // ---- counters ----------------------------------------------------------------------------

  datatype MailboxStatus = MailboxStatus(aborts: nat, timeouts: nat, emergencies: nat) {
    function Total(): nat { aborts + timeouts + emergencies }
  }

  function Counted(s: MailboxStatus, ev: MailboxEvent): (r: MailboxStatus)
    ensures r.Total() == s.Total() + 1
  {
    match ev.kind
    case Emergency => s.(emergencies := s.emergencies + 1)
    case Timeout => s.(timeouts := s.timeouts + 1)
    case _ => s.(aborts := s.aborts + 1)
  }

  function CountedAll(s: MailboxStatus, evs: seq<MailboxEvent>): (r: MailboxStatus)
    ensures r.Total() == s.Total() + |evs|
  {
    if evs == [] then s else Counted(CountedAll(s, evs[..|evs| - 1]), evs[|evs| - 1])
  }

  // How many events satisfy p.
  function HowMany(evs: seq<MailboxEvent>, p: MailboxEvent -> bool): nat {
    if evs == [] then 0 else HowMany(evs[..|evs| - 1], p) + if p(evs[|evs| - 1]) then 1 else 0
  }

  // Each counter counts its own kind of event: emergencies, timeouts, and everything else.
  lemma {:induction false} CountedByKind(s: MailboxStatus, evs: seq<MailboxEvent>)
    ensures var r := CountedAll(s, evs);
            && r.emergencies == s.emergencies + HowMany(evs, (e: MailboxEvent) => e.kind == Emergency)
            && r.timeouts == s.timeouts + HowMany(evs, (e: MailboxEvent) => e.kind == Timeout)
            && r.aborts == s.aborts + HowMany(evs, (e: MailboxEvent) => e.kind != Emergency && e.kind != Timeout)
  {
    if evs != [] { CountedByKind(s, evs[..|evs| - 1]); }
  }

  function Events(raws: seq<RawError>): seq<MailboxEvent> {
    seq(|raws|, i requires 0 <= i < |raws| => EventOf(raws[i]))
  }

  // Position of the first event that belongs to the access, or the length.
  function FirstMatch(evs: seq<MailboxEvent>, acc: Access): (k: nat)
    ensures k <= |evs|
    ensures k < |evs| ==> BelongsTo(evs[k], acc)
    ensures forall i | 0 <= i < k :: !BelongsTo(evs[i], acc)
  {
    if evs == [] then 0
    else if BelongsTo(evs[0], acc) then 0
    else FirstMatch(evs[1..], acc) + 1
  }

  function WithoutAt(evs: seq<MailboxEvent>, k: nat): seq<MailboxEvent> {
    if k < |evs| then evs[..k] + evs[k + 1..] else evs
  }

  function Kept(evs: seq<MailboxEvent>, acc: Access): Option<MailboxEvent> {
    var k := FirstMatch(evs, acc);
    if k < |evs| then Some(evs[k]) else None
  }

  function Others(evs: seq<MailboxEvent>, acc: Access): seq<MailboxEvent> { WithoutAt(evs, FirstMatch(evs, acc)) }

  // What an access that found `evs` on the error list reports, and which events it counts.
  function SdoEvent(evs: seq<MailboxEvent>, acc: Access, wkc: int): Option<MailboxEvent> {
    if wkc <= 0 && Kept(evs, acc) == None then Some(TimeoutEvent(acc)) else Kept(evs, acc)
  }

  function SdoCounted(evs: seq<MailboxEvent>, acc: Access, wkc: int): seq<MailboxEvent> {
    Others(evs, acc) + if wkc <= 0 && Kept(evs, acc) == None then [TimeoutEvent(acc)] else []
  }

  function FoeOutcome(evs: seq<MailboxEvent>, acc: Access, wkc: int, types: int -> ErrorType): Option<MailboxEvent> {
    if wkc <= 0 then Some(FoeEvent(acc.deviceId, wkc, types)) else Kept(evs, acc)
  }

  function FoeCounted(evs: seq<MailboxEvent>, acc: Access, wkc: int, types: int -> ErrorType): seq<MailboxEvent> {
    var kept := Kept(evs, acc);
    if wkc > 0 then Others(evs, acc)
    else Others(evs, acc) + (if kept.Some? then [kept.value] else []) + [FoeEvent(acc.deviceId, wkc, types)]
  }

  // The counters after a drain for `acc` has passed the first n events.
  function CountedBefore(s: MailboxStatus, evs: seq<MailboxEvent>, n: nat, acc: Access): MailboxStatus
    requires n <= |evs|
  {
    CountedAll(s, WithoutAt(evs[..n], FirstMatch(evs, acc)))
  }

  lemma CountedBeforeNext(s: MailboxStatus, evs: seq<MailboxEvent>, n: nat, acc: Access)
    requires n < |evs|
    ensures var k := FirstMatch(evs, acc);
            && (k >= n ==> (BelongsTo(evs[n], acc) <==> n == k))
            && CountedBefore(s, evs, n + 1, acc)
               == if n == k then CountedBefore(s, evs, n, acc) else Counted(CountedBefore(s, evs, n, acc), evs[n])
  {
    var k := FirstMatch(evs, acc);
    if n == k {
      assert WithoutAt(evs[..n + 1], k) == WithoutAt(evs[..n], k);
    } else {
      WithoutAtNext(evs, n, k);
      CountedNext(s, WithoutAt(evs[..n], k), evs[n]);
    }
  }

  lemma WithoutAtNext(evs: seq<MailboxEvent>, n: nat, k: nat)
    requires n < |evs| && k != n
    ensures WithoutAt(evs[..n + 1], k) == WithoutAt(evs[..n], k) + [evs[n]]
  {
  }

  lemma CountedNext(s: MailboxStatus, evs: seq<MailboxEvent>, ev: MailboxEvent)
    ensures CountedAll(s, evs + [ev]) == Counted(CountedAll(s, evs), ev)
  {
    assert (evs + [ev])[..|evs|] == evs;
  }

}

/** The mailbox part of the backend, as one thread sees it while holding mailbox_mutex_. */
module MailboxChannel {
  import opened Options
  import opened BusStates
  import opened MailboxEvents

  datatype AccessResult =
    | NotInitialized                       // BackendError: bus not initialized or shut down
    | DeviceNotFound
    | SizeMismatch(actual: int)            // BackendError after a successful read of another size
    | Done(success: bool, wkc: int, size: int, event: Option<MailboxEvent>)   // size: of reads

  // What one ecx_* mailbox call did: the records it pushed, its working counter and the size it read.
  datatype Transfer = Transfer(pushed: seq<RawError>, wkc: int, actualSize: int)

  class Channel {
    const errorTypes: int -> ErrorType   // the numbering of ec_err_type
    var errors: seq<RawError>        // SOEM's error list, oldest first
    var status: MailboxStatus
    var busState: BusState
    var slaveCount: nat

    constructor (errorTypes: int -> ErrorType, slaves: nat, state: BusState)
      ensures this.errorTypes == errorTypes && slaveCount == slaves && busState == state
      ensures errors == [] && status == MailboxStatus(0, 0, 0)
    {
      this.errorTypes := errorTypes;
      errors, status, busState, slaveCount := [], MailboxStatus(0, 0, 0), state, slaves;
    }

    predicate OnBus(id: uint16)
      reads this
    {
      0 < id <= slaveCount
    }

    predicate MailboxClosed()
      reads this
    {
      busState == PreInit || busState == Shutdown
    }

    method PopError() returns (raw: Option<RawError>)
      modifies this`errors
      ensures old(errors) == [] ==> raw == None && errors == []
      ensures old(errors) != [] ==> raw == Some(old(errors)[0]) && errors == old(errors)[1..]
    {
      if errors == [] {
        raw := None;
      } else {
        raw, errors := Some(errors[0]), errors[1..];
      }
    }

    method Report(ev: MailboxEvent)
      modifies this`status
      ensures status == Counted(old(status), ev)
      ensures status.emergencies == old(status).emergencies + if ev.kind == Emergency then 1 else 0
      ensures status.timeouts == old(status).timeouts + if ev.kind == Timeout then 1 else 0
    {
      match ev.kind {
        case Emergency => status := status.(emergencies := status.emergencies + 1);
        case Timeout => status := status.(timeouts := status.timeouts + 1);
        case _ => status := status.(aborts := status.aborts + 1);
      }
    }

    // drain_mailbox_events(): everything is counted.
    method Drain()
      modifies this`errors, this`status
      ensures errors == [] && status == CountedAll(old(status), Events(old(errors)))
    {
      var raw := PopError();
      ghost var n := 0;
      while raw.Some?
        invariant raw.Some? ==> n < |old(errors)| && raw.value == old(errors)[n] && errors == old(errors)[n + 1..]
        invariant raw.None? ==> n == |old(errors)| && errors == []
        invariant status == CountedAll(old(status), Events(old(errors))[..n])
        decreases |errors|, raw.Some?
      {
        var ev := MakeMailboxEvent(raw.value);
        Report(ev);
        assert Events(old(errors))[..n + 1][..n] == Events(old(errors))[..n];
        n := n + 1;
        raw := PopError();
      }
      assert Events(old(errors))[..n] == Events(old(errors));
    }

    // One turn of the drain: the record is kept if it is the first that belongs to the access, else counted.
    method Attribute(raw: RawError, acc: Access, attributed: Option<MailboxEvent>)
      returns (kept: Option<MailboxEvent>)
      modifies this`status
      ensures if attributed.None? && BelongsTo(EventOf(raw), acc)
              then kept == Some(EventOf(raw)) && status == old(status)
              else kept == attributed && status == Counted(old(status), EventOf(raw))
    {
      var ev := MakeMailboxEvent(raw);
      if attributed.None? && BelongsTo(ev, acc) {
        kept := Some(ev);
      } else {
        kept := attributed;
        Report(ev);
      }
    }

    // What the drain has kept and counted after n events.
    ghost predicate Drained(evs: seq<MailboxEvent>, n: nat, acc: Access, s: MailboxStatus, kept: Option<MailboxEvent>)
      requires n <= |evs|
      reads this`status
    {
      var k := FirstMatch(evs, acc);
      kept == (if k < n then Some(evs[k]) else None) && status == CountedBefore(s, evs, n, acc)
    }

    // One turn, seen as progress through the events on the list.
    method DrainNext(raw: RawError, acc: Access, attributed: Option<MailboxEvent>,
                     ghost evs: seq<MailboxEvent>, ghost n: nat, ghost s: MailboxStatus)
      returns (kept: Option<MailboxEvent>)
      requires n < |evs| && evs[n] == EventOf(raw) && Drained(evs, n, acc, s, attributed)
      modifies this`status
      ensures Drained(evs, n + 1, acc, s, kept)
    {
      CountedBeforeNext(s, evs, n, acc);
      kept := Attribute(raw, acc, attributed);
    }

    // drain_mailbox_events(acc): the first event belonging to the access is kept, the rest counted.
    method DrainFor(acc: Access) returns (attributed: Option<MailboxEvent>)
      modifies this`errors, this`status
      ensures errors == [] && attributed == Kept(Events(old(errors)), acc)
      ensures status == CountedAll(old(status), Others(Events(old(errors)), acc))
    {
      ghost var evs := Events(old(errors));
      attributed := None;
      var raw := PopError();
      ghost var n := 0;
      while raw.Some?
        invariant raw.Some? ==> n < |evs| && raw.value == old(errors)[n] && errors == old(errors)[n + 1..]
        invariant raw.None? ==> n == |evs| && errors == []
        invariant Drained(evs, n, acc, old(status), attributed)
        decreases |errors|, raw.Some?
      {
        attributed := DrainNext(raw.value, acc, attributed, evs, n, old(status));
        n := n + 1;
        raw := PopError();
      }
      assert evs[..n] == evs;
    }

    method FinishMailboxAccess(acc: Access, wkc: int) returns (event: Option<MailboxEvent>, failed: bool)
      modifies this`errors, this`status
      ensures errors == [] && (failed <==> event.Some?)
      ensures event == SdoEvent(Events(old(errors)), acc, wkc)
      ensures status == CountedAll(old(status), SdoCounted(Events(old(errors)), acc, wkc))
    {
      ghost var evs := Events(errors);
      KeptIsError(errors, acc);
      event := DrainFor(acc);
      if wkc <= 0 && event.None? {
        var timeout := MakeTimeoutEvent(acc);
        event := Some(timeout);
        CountedNext(old(status), Others(evs, acc), event.value);
        Report(event.value);
      } else {
        assert Others(evs, acc) + [] == Others(evs, acc);
      }
      failed := wkc <= 0 || (event.Some? && event.value.severity == Error);
    }

    method FinishFoeAccess(acc: Access, wkc: int) returns (event: Option<MailboxEvent>, failed: bool)
      modifies this`errors, this`status
      ensures errors == [] && (failed <==> event.Some?)
      ensures event == FoeOutcome(Events(old(errors)), acc, wkc, errorTypes)
      ensures status == CountedAll(old(status), FoeCounted(Events(old(errors)), acc, wkc, errorTypes))
    {
      ghost var evs := Events(errors);
      KeptIsError(errors, acc);
      event := DrainFor(acc);
      if wkc > 0 {
        failed := event.Some? && event.value.severity == Error;
        return;
      }
      ghost var counted := Others(evs, acc);
      if event.Some? {
        CountedNext(old(status), counted, event.value);
        counted := counted + [event.value];
        Report(event.value);
      } else {
        assert counted + [] == counted;
      }
      var foe := MakeFoeEvent(acc.deviceId, wkc, errorTypes);
      event, failed := Some(foe), true;
      CountedNext(old(status), counted, event.value);
      Report(event.value);
    }

    // The checks every access makes before touching the error list.
    predicate Refused(device: uint16)
      reads this
    {
      MailboxClosed() || !OnBus(device)
    }

    // read_sdo_untyped (and write_sdo_untyped, with checkSize false). A size mismatch is raised only
    // when there is no event to report, so the exception loses none.
    method AccessSdo(acc: Access, requested: int, checkSize: bool, t: Transfer) returns (r: AccessResult)
      modifies this`errors, this`status
      ensures old(busState == PreInit || busState == Shutdown) <==> r == NotInitialized
      ensures old(busState != PreInit && busState != Shutdown && !(0 < acc.deviceId <= slaveCount)) <==>
                r == DeviceNotFound
      ensures old(Refused(acc.deviceId)) ==> errors == old(errors) && status == old(status)
      ensures old(!Refused(acc.deviceId)) ==>
                && errors == []
                && status == CountedAll(CountedAll(old(status), Events(old(errors))),
                                        SdoCounted(Events(t.pushed), acc, t.wkc))
                && r == SdoResult(acc, requested, checkSize, t)
    {
      if busState == PreInit || busState == Shutdown {
        return NotInitialized;
      }
      if !OnBus(acc.deviceId) {
        return DeviceNotFound;
      }
      Drain();
      errors := errors + t.pushed;
      assert errors == t.pushed;
      var event, failed := FinishMailboxAccess(acc, t.wkc);
      if failed {
        return Done(false, t.wkc, t.actualSize, event);
      }
      if checkSize && requested != t.actualSize {
        return SizeMismatch(t.actualSize);
      }
      return Done(true, t.wkc, t.actualSize, event);
    }

    // foe_write, and foe_read with a buffer of the given size
    method AccessFoe(acc: Access, buffer: nat, t: Transfer) returns (r: AccessResult)
      modifies this`errors, this`status
      ensures old(busState == PreInit || busState == Shutdown) <==> r == NotInitialized
      ensures old(busState != PreInit && busState != Shutdown && !(0 < acc.deviceId <= slaveCount)) <==>
                r == DeviceNotFound
      ensures old(Refused(acc.deviceId)) ==> errors == old(errors) && status == old(status)
      ensures old(!Refused(acc.deviceId)) ==>
                && errors == []
                && status == CountedAll(CountedAll(old(status), Events(old(errors))),
                                        FoeCounted(Events(t.pushed), acc, t.wkc, errorTypes))
                && r == FoeResult(acc, buffer, t, errorTypes)
    {
      if busState == PreInit || busState == Shutdown {
        return NotInitialized;
      }
      if !OnBus(acc.deviceId) {
        return DeviceNotFound;
      }
      Drain();
      errors := errors + t.pushed;
      assert errors == t.pushed;
      var event, failed := FinishFoeAccess(acc, t.wkc);
      var size := 0;
      if !failed {
        // the int converted to size_t, and the minimum of both
        size := if t.actualSize < 0 || t.actualSize > buffer then buffer else t.actualSize;
      }
      return Done(!failed, t.wkc, size, event);
    }
  }

  lemma KeptIsError(raws: seq<RawError>, acc: Access)
    ensures Kept(Events(raws), acc).Some? ==> Kept(Events(raws), acc).value.severity == Error
  {
    var k := FirstMatch(Events(raws), acc);
    if k < |raws| { SolicitedIsError(raws[k], acc); }
  }

  function SdoResult(acc: Access, requested: int, checkSize: bool, t: Transfer): AccessResult {
    var event := SdoEvent(Events(t.pushed), acc, t.wkc);
    if event.Some? then Done(false, t.wkc, t.actualSize, event)
    else if checkSize && requested != t.actualSize then SizeMismatch(t.actualSize)
    else Done(true, t.wkc, t.actualSize, None)
  }

  // A negative size is huge as a size_t.
  function FoeSize(actual: int, buffer: nat): nat { if 0 <= actual <= buffer then actual else buffer }

  function FoeResult(acc: Access, buffer: nat, t: Transfer, types: int -> ErrorType): AccessResult {
    var event := FoeOutcome(Events(t.pushed), acc, t.wkc, types);
    Done(event == None, t.wkc, if event == None then FoeSize(t.actualSize, buffer) else 0, event)
  }

  // ---- what the results mean ---------------------------------------------------------------

  // The first record of the transfer that belongs to the access.
  ghost predicate FirstSolicited(ev: MailboxEvent, acc: Access, pushed: seq<RawError>) {
    exists k :: 0 <= k < |pushed| && ev == EventOf(pushed[k]) && BelongsTo(ev, acc)
                && forall i | 0 <= i < k :: !BelongsTo(EventOf(pushed[i]), acc)
  }

  ghost predicate Unanswered(acc: Access, pushed: seq<RawError>) {
    forall e | e in pushed :: !BelongsTo(EventOf(e), acc)
  }

  lemma KeptIsFirstSolicited(acc: Access, pushed: seq<RawError>)
    ensures var kept := Kept(Events(pushed), acc);
            if kept.Some? then FirstSolicited(kept.value, acc, pushed) && !Unanswered(acc, pushed)
            else Unanswered(acc, pushed)
  {
    var evs := Events(pushed);
    var k := FirstMatch(evs, acc);
    forall i | 0 <= i < |evs| ensures evs[i] == EventOf(pushed[i]) { }
    if k < |evs| {
      assert evs[k] == EventOf(pushed[k]) && pushed[k] in pushed;
      forall i | 0 <= i < k ensures !BelongsTo(EventOf(pushed[i]), acc) { assert evs[i] == EventOf(pushed[i]); }
    } else {
      forall e | e in pushed ensures !BelongsTo(EventOf(e), acc) {
        var i :| 0 <= i < |pushed| && pushed[i] == e;
        assert evs[i] == EventOf(e);
      }
    }
  }

  // An SDO access fails exactly when the working counter is too low or the device answered with a
  // solicited event, and then - and only then - it carries an event: that answer, or a timeout.
  lemma SdoOutcomeCoherent(acc: Access, requested: int, checkSize: bool, t: Transfer)
    ensures var r := SdoResult(acc, requested, checkSize, t);
            && (r.Done? && !r.success <==> t.wkc <= 0 || !Unanswered(acc, t.pushed))
            && (r.Done? ==> (r.success <==> r.event == None))
            && (r.Done? && !r.success ==>
                if Unanswered(acc, t.pushed) then r.event.value == TimeoutEvent(acc)
                else FirstSolicited(r.event.value, acc, t.pushed) && r.event.value.severity == Error)
  {
    KeptIsFirstSolicited(acc, t.pushed);
    KeptIsError(t.pushed, acc);
  }

  // It succeeds exactly when it was answered by nothing but data of the size asked for; data of another
  // size is an error that names the size.
  lemma SdoSucceedsIff(acc: Access, requested: int, checkSize: bool, t: Transfer)
    ensures var r := SdoResult(acc, requested, checkSize, t);
            && (r == Done(true, t.wkc, t.actualSize, None) <==>
                t.wkc > 0 && Unanswered(acc, t.pushed) && (checkSize ==> requested == t.actualSize))
            && (r.SizeMismatch? <==>
                t.wkc > 0 && Unanswered(acc, t.pushed) && checkSize && requested != t.actualSize)
            && (r.SizeMismatch? ==> r.actual == t.actualSize)
            && (r.Done? ==> r.wkc == t.wkc && r.size == t.actualSize)
            && (r.SizeMismatch? || r.Done?)
  {
    KeptIsFirstSolicited(acc, t.pushed);
    KeptIsError(t.pushed, acc);
  }

  // An FoE access likewise; its own return code overrides whatever the drain found.
  lemma FoeOutcomeCoherent(acc: Access, buffer: nat, t: Transfer, types: int -> ErrorType)
    ensures var r := FoeResult(acc, buffer, t, types);
            && (!r.success <==> t.wkc <= 0 || !Unanswered(acc, t.pushed))
            && (r.success <==> r.event == None)
            && (!r.success && t.wkc > 0 ==> FirstSolicited(r.event.value, acc, t.pushed))
            && (t.wkc <= 0 ==> r.event.value == FoeEvent(acc.deviceId, t.wkc, types))
            && (t.wkc <= 0 ==> (r.event.value.kind == Timeout <==> t.wkc == 0))
            && r.Done? && r.wkc == t.wkc && 0 <= r.size <= buffer && (!r.success ==> r.size == 0)
            && (r.success && 0 <= t.actualSize <= buffer ==> r.size == t.actualSize)
            && (r.success && !(0 <= t.actualSize <= buffer) ==> r.size == buffer)
  {
    KeptIsFirstSolicited(acc, t.pushed);
  }

  // Conservation for one access: everything pushed is counted or handed over, exactly once;
  // what is made up (timeout, FoE failure) is both counted and handed over.
  lemma SdoConserves(acc: Access, t: Transfer)
    ensures var evs := Events(t.pushed); var kept := Kept(evs, acc); var counted := SdoCounted(evs, acc, t.wkc);
            var made := if t.wkc <= 0 && kept == None then multiset{TimeoutEvent(acc)} else multiset{};
            && multiset(counted) + (if kept.Some? then multiset{kept.value} else multiset{}) == multiset(evs) + made
            && (SdoEvent(evs, acc, t.wkc) == if made == multiset{} then kept else Some(TimeoutEvent(acc)))
  {
    OthersConserve(Events(t.pushed), acc);
    var evs := Events(t.pushed);
    if t.wkc <= 0 && Kept(evs, acc) == None {
      assert multiset(Others(evs, acc) + [TimeoutEvent(acc)]) == multiset(evs) + multiset{TimeoutEvent(acc)};
    } else {
      assert SdoCounted(evs, acc, t.wkc) == Others(evs, acc);
    }
  }

  lemma FoeConserves(acc: Access, t: Transfer, types: int -> ErrorType)
    ensures var evs := Events(t.pushed); var kept := Kept(evs, acc);
            var counted := FoeCounted(evs, acc, t.wkc, types); var foe := FoeEvent(acc.deviceId, t.wkc, types);
            if t.wkc <= 0 then multiset(counted) == multiset(evs) + multiset{foe}
            else multiset(counted) + (if kept.Some? then multiset{kept.value} else multiset{}) == multiset(evs)
  {
    OthersConserve(Events(t.pushed), acc);
  }

  lemma OthersConserve(evs: seq<MailboxEvent>, acc: Access)
    ensures var kept := Kept(evs, acc);
            multiset(Others(evs, acc)) + (if kept.Some? then multiset{kept.value} else multiset{}) == multiset(evs)
  {
    var k := FirstMatch(evs, acc);
    if k < |evs| {
      assert evs == evs[..k] + [evs[k]] + evs[k + 1..];
    }
  }
}
