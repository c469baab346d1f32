/** The two enumerations of model/event.py. */
module Event {

  /** The producers that hand data to the dispatcher (`ProcessID`). */
  datatype ProcessID = MainProcess | GpsProcess | GpsSerialProcess | WsjtxProcess

  /** The topics events are published on (`Callback`). */
  datatype Callback =
    | Quit
    | GpsSend
    | GpsDecode
    | GpsOpen
    | GpsSerialSend
    | GpsSerialDecode
    | GpsSerialOpen
    | WsjtxSend
    | WsjtxOpen
    | WsjtxStatus
    | WsjtxCalls
}
