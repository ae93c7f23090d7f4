/**
 One request and its result: status, addresses, and the time stamps of each layer. `Entry` is the
 value of an entry; the class `ResultEntry` is the program's mutable object.
 */
module ResultEntries {
  import opened Words
  import opened Addresses

  datatype HopStatus =
    | Unknown
    | TimeExceeded
    | UnreachableScope
    | UnreachableNetwork
    | UnreachableHost
    | UnreachableProtocol
    | UnreachablePort
    | UnreachableProhibited
    | UnreachableUnknown
    | Timeout
    | NotSentGenericError
    | NotSentPermissionDenied
    | NotSentNetworkUnreachable
    | NotSentHostUnreachable
    | NotAvailableAddress
    | NotValidMsgSize
    | NotEnoughBufferSpace
    | Success

  datatype TimeSource =
    | NoSource
    | SysClock
    | Timestamp
    | TimestampNS
    | SIOCGStamp
    | SIOCGStampNS
    | TimestampingSW
    | TimestampingHW

  function SourceCode(source: TimeSource): (code: int)
    ensures 0 <= code < 0x10
  {
    match source
    case NoSource => 0x0
    case SysClock => 0x1
    case Timestamp => 0x2
    case TimestampNS => 0x3
    case SIOCGStamp => 0x4
    case SIOCGStampNS => 0x5
    case TimestampingSW => 0x6
    case TimestampingHW => 0xa
  }

  /** The layers that deliver time stamps; replies have none from the scheduler. */
  datatype Layer = Application | Software | Hardware | Scheduler

  datatype TimeStamp = TimeStamp(source: TimeSource, time: int)

  /** The unset time point. */
  const UNSET := 0
  const NO_STAMP := TimeStamp(NoSource, UNSET)
  const NS_PER_MS := 1_000_000

  datatype SendStamps = SendStamps(application: TimeStamp, software: TimeStamp, hardware: TimeStamp,
                                   scheduler: TimeStamp) {
    function At(layer: Layer): TimeStamp {
      match layer
      case Application => application
      case Software => software
      case Hardware => hardware
      case Scheduler => scheduler
    }

    function WithoutSources(): SendStamps {
      SendStamps(TimeStamp(NoSource, application.time), TimeStamp(NoSource, software.time),
                 TimeStamp(NoSource, hardware.time), TimeStamp(NoSource, scheduler.time))
    }

    function With(layer: Layer, stamp: TimeStamp): SendStamps {
      match layer
      case Application => this.(application := stamp)
      case Software => this.(software := stamp)
      case Hardware => this.(hardware := stamp)
      case Scheduler => this.(scheduler := stamp)
    }
  }

  datatype ReceiveStamps = ReceiveStamps(application: TimeStamp, software: TimeStamp, hardware: TimeStamp) {
    function At(layer: Layer): TimeStamp
      requires !layer.Scheduler?
    {
      match layer
      case Application => application
      case Software => software
      case Hardware => hardware
    }

    function WithoutSources(): ReceiveStamps {
      ReceiveStamps(TimeStamp(NoSource, application.time), TimeStamp(NoSource, software.time),
                    TimeStamp(NoSource, hardware.time))
    }

    function With(layer: Layer, stamp: TimeStamp): ReceiveStamps
      requires !layer.Scheduler?
    {
      match layer
      case Application => this.(application := stamp)
      case Software => this.(software := stamp)
      case Hardware => this.(hardware := stamp)
    }
  }

  const NO_SEND_STAMPS := SendStamps(NO_STAMP, NO_STAMP, NO_STAMP, NO_STAMP)
  const NO_RECEIVE_STAMPS := ReceiveStamps(NO_STAMP, NO_STAMP, NO_STAMP)

  /** What `initialise` fixes for good. */
  datatype Request = Request(
    timeStampSeqID: uint32,
    roundNumber: uint16,
    seqNumber: uint16,
    hopNumber: uint32,
    packetSize: uint32,
    checksum: uint16,
    sourcePort: uint16,
    destinationPort: uint16,
    destination: DestinationInfo)

  datatype Entry = Entry(
    request: Request,
    responseSize: uint32,
    source: Address,
    hop: Address,
    status: HopStatus,
    sent: SendStamps,
    received: ReceiveStamps)

  function WithoutScope(destination: DestinationInfo): DestinationInfo {
    destination.(address := destination.address.DropScopeID())
  }

  function Initial(request: Request, sendTime: int, source: Address, status: HopStatus): Entry {
    Entry(request.(destination := WithoutScope(request.destination)), 0, source.DropScopeID(),
          request.destination.address.DropScopeID(), status,
          SendStamps(TimeStamp(SysClock, sendTime), TimeStamp(SysClock, sendTime), NO_STAMP, NO_STAMP),
          NO_RECEIVE_STAMPS)
  }

  function Completed(e: Entry, status: HopStatus, receiveTime: int): Entry {
    e.(status := status, received := e.received.With(Application, TimeStamp(SysClock, receiveTime)))
  }

  function Expired(e: Entry, expiration: nat): Entry {
    Completed(e, Timeout, e.sent.application.time + NS_PER_MS * expiration)
  }

  /** The error codes of sendto() that have a status of their own. */
  datatype SendError =
    | PermissionDenied
    | NetworkUnreachable
    | HostUnreachable
    | AddressNotAvailable
    | MessageSize
    | NoBufferSpace
    | OtherError

  function SendErrorStatus(error: SendError): HopStatus {
    match error
    case PermissionDenied => NotSentPermissionDenied
    case NetworkUnreachable => NotSentNetworkUnreachable
    case HostUnreachable => NotSentHostUnreachable
    case AddressNotAvailable => NotAvailableAddress
    case MessageSize => NotValidMsgSize
    case NoBufferSpace => NotEnoughBufferSpace
    case OtherError => NotSentGenericError
  }

  function FailedToSend(e: Entry, error: SendError): Entry {
    Completed(e, SendErrorStatus(error), e.sent.application.time)
  }

  class ResultEntry {
    var Info: Request
    var ResponseSize: uint32
    var Source: Address
    var Hop: Address
    var Status: HopStatus
    var SendTime: SendStamps
    var ReceiveTime: ReceiveStamps

    function Value(): Entry
      reads this
    {
      Entry(Info, ResponseSize, Source, Hop, Status, SendTime, ReceiveTime)
    }

    /** A new entry: no time stamp is set. */
    constructor ()
      ensures SendTime == NO_SEND_STAMPS
      ensures ReceiveTime == NO_RECEIVE_STAMPS
    {
      var none: Address := V4([0, 0, 0, 0]);
      Info := Request(0, 0, 0, 0, 0, 0, 0, 0, DestinationInfo(none, 0, 0));
      ResponseSize, Source, Hop := 0, none, none;
      Status := Unknown;
      SendTime := NO_SEND_STAMPS;
      ReceiveTime := NO_RECEIVE_STAMPS;
    }

    /** The time stamps lose their sources; only those of the sending are set. In a new entry none is left. */
    method Initialise(request: Request, sendTime: int, source: Address, status: HopStatus)
      modifies this
      ensures ReceiveTime == old(ReceiveTime).WithoutSources()
      ensures SendTime == old(SendTime).WithoutSources().(application := TimeStamp(SysClock, sendTime),
                                                          software := TimeStamp(SysClock, sendTime))
      ensures Value() == Initial(request, sendTime, source, status).(sent := SendTime, received := ReceiveTime)
      ensures old(SendTime) == NO_SEND_STAMPS && old(ReceiveTime) == NO_RECEIVE_STAMPS ==>
                Value() == Initial(request, sendTime, source, status)
    {
      Info := request.(destination := WithoutScope(request.destination));
      ResponseSize := 0;
      Source := source.DropScopeID();
      Hop := Info.destination.address;
      Status := status;
      SendTime, ReceiveTime := SendTime.WithoutSources(), ReceiveTime.WithoutSources();
      SetSendTime(Application, SysClock, sendTime);
      // May be replaced later, when the kernel reports the transmission.
      SetSendTime(Software, SysClock, sendTime);
    }

    method SetSendTime(layer: Layer, source: TimeSource, time: int)
      modifies this`SendTime
      ensures SendTime == old(SendTime).With(layer, TimeStamp(source, time))
    {
      SendTime := SendTime.With(layer, TimeStamp(source, time));
    }

    method SetReceiveTime(layer: Layer, source: TimeSource, time: int)
      requires !layer.Scheduler?
      modifies this`ReceiveTime
      ensures ReceiveTime == old(ReceiveTime).With(layer, TimeStamp(source, time))
    {
      ReceiveTime := ReceiveTime.With(layer, TimeStamp(source, time));
    }

    method Expire(expiration: nat)
      modifies this`Status, this`ReceiveTime
      ensures Value() == Expired(old(Value()), expiration)
    {
      Status := Timeout;
      SetReceiveTime(Application, SysClock, SendTime.application.time + NS_PER_MS * expiration);
    }

    method SendingFailed(error: SendError)
      modifies this`Status, this`ReceiveTime
      ensures Value() == FailedToSend(old(Value()), error)
    {
      Status := SendErrorStatus(error);
      SetReceiveTime(Application, SysClock, SendTime.application.time);
    }

    method UpdateSourceAddress(address: Address)
      requires Source.IsUnspecified()
      modifies this`Source
      ensures Source == address
    {
      Source := address;
    }
  }
}
