/**
 * Values the dispatcher and the contact store exchange with code that is not
 * part of this model: the messages the radio-app parser produces, the
 * outbound frames its encoders build, parsed GPS JSON, and the session
 * settings.
 */
module Types {
  import opened Wrappers

  /** A Decode message: one line the radio app received over the air. */
  datatype Decode = Decode(
    time: int,
    snr: int,
    deltaTime: real,
    deltaFreq: int,
    mode: string,      // the radio app's one-character mode marker, such as "~"
    message: string)

  /** A Status message: the radio app's current dial, mode and activity. */
  datatype Status = Status(
    dialFreq: int,
    mode: string,
    deCall: string,
    deGrid: string,
    decoding: bool,
    transmitting: bool,
    txMsg: string)

  /** The date and time parts the parser delivers for a logged contact. */
  type Stamp = seq<int>

  /** A Logged QSO message: one contact the operator logged. */
  datatype Qso = Qso(
    timeOff: Stamp,
    dxCall: string,
    dxGrid: string,
    txFreq: int,
    mode: string,      // a mode name, such as "FT8"
    rstSent: string,
    rstRecv: string,
    txPower: string,
    comments: string,
    name: string,
    timeOn: Stamp,
    opCall: string,
    myCall: string,
    myGrid: string,
    exSent: string,
    exRecv: string,
    adifMd: string)

  /** What the radio-app parser yields, one variant per message type the dispatcher routes on. */
  datatype WsjtxMsg =
    | HeartbeatMsg                 // type 0
    | StatusMsg(status: Status)    // type 1
    | DecodeMsg(decode: Decode)    // type 2
    | LoggedMsg(qso: Qso)          // type 5
    | AdifMsg(text: string)        // type 12
    | OtherMsg(msgId: int)         // any other type

  /** An outbound frame, named by the encoder that builds it and that encoder's argument. */
  datatype Frame =
    | HeartbeatFrame               // heartbeat()
    | ReplyFrame(decode: Decode)   // reply(msg)
    | HaltFrame(flag: bool)        // halt_tx(flag)
    | LocationFrame(grid: string)  // location(grid)

  /** A JSON value, as far as the GPS handling looks into it. */
  datatype Json = JStr(s: string) | JNum(x: real) | JOther

  /** A parsed JSON object. */
  type JsonObject = map<string, Json>

  /** The settings the core reads and writes: the operator and the session context. */
  datatype Session = Session(
    deCall: string,
    grid: string,
    ordinal: int,
    band: int,
    park: string,
    shift: string)

  /** Python exceptions that escape an operation of the core. */
  datatype Exc = KeyError | IndexError

  /** How an operation ended: normally, or with an exception propagating to its caller. */
  datatype Outcome = Done | Raised(error: Exc)
}
