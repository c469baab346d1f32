/**
 * The message dispatcher `_Model` of model/model.py: the listener registry
 * and its events, the outbound commands, the GPS JSON handling and the
 * routing of radio-app messages into the decode buffer, the flush and the
 * contact store.
 */
module Dispatch {
  import opened Wrappers
  import opened Text
  import opened Event
  import opened Types
  import opened Flush
  import opened ContactLog

  /** A subscribed callable, identified by a number. */
  type Listener = nat

  /** `_event_listeners`: the set of callables subscribed to each topic. */
  type Registry = map<Callback, set<Listener>>

  /** The collaborators the dispatcher calls but does not define. */
  datatype Env = Env(
    parse: seq<byte> -> WsjtxMsg,                // rx_msg.parse
    loads: seq<byte> -> Option<JsonObject>,      // json.loads; None stands for JSONDecodeError
    gridSquare: (Json, Json) -> string,          // utility.grid_square(lon, lat)
    updateStatus: (Session, Status) -> Session)  // Settings.update_status

  /** The data handed to listeners. */
  datatype Payload =
    | NoData                                   // trigger_event's default `None`
    | OpenFlag(open: bool)                     // GPS_OPEN
    | Send(frame: Frame)                       // WSJTX_SEND
    | GpsCommand(command: string)              // GPS_SEND, ASCII bytes
    | GpsData(grid: Option<string>)            // GPS_DECODE {'time': None, 'grid': grid}
    | StatusReport(status: Status)             // WSJTX_STATUS
    | CallLists(pota: seq<Decode>, me: seq<Decode>, cq: seq<Decode>)  // WSJTX_CALLS

  /** One `trigger_event` call: its topic, its data and the listeners it reached. */
  datatype Emission = Emission(topic: Callback, payload: Payload, audience: set<Listener>)

  /** The listeners `trigger_event` calls for `topic`: none when the topic was never subscribed. */
  function Audience(reg: Registry, topic: Callback): set<Listener>
  {
    if topic in reg then reg[topic] else {}
  }

  /** `add_event_listener(topic, fn)` on the registry. */
  function Subscribe(reg: Registry, topic: Callback, fn: Listener): (reg': Registry)
    ensures forall t :: Audience(reg', t) == if t == topic then Audience(reg, t) + {fn} else Audience(reg, t)
  {
    if topic in reg then reg[topic := reg[topic] + {fn}] else reg[topic := {fn}]
  }

  /** `remove_event_listener(topic, fn)` on the registry; a missing topic or listener is ignored. */
  function Unsubscribe(reg: Registry, topic: Callback, fn: Listener): (reg': Registry)
    ensures forall t :: Audience(reg', t) == if t == topic then Audience(reg, t) - {fn} else Audience(reg, t)
  {
    if topic in reg && fn in reg[topic] then reg[topic := reg[topic] - {fn}] else reg
  }

  /** Removing a listener that was not subscribed before it was added restores every audience. */
  lemma UnsubscribeUndoesSubscribe(reg: Registry, topic: Callback, fn: Listener)
    requires fn !in Audience(reg, topic)
    ensures forall t :: Audience(Unsubscribe(Subscribe(reg, topic, fn), topic, fn), t) == Audience(reg, t)
  {
  }

  /** The gpsd command that asks for JSON reports. */
  const WatchCommand: string := "?WATCH={\"enable\":true,\"json\":true}"

  /** What one GPS report asks the dispatcher to do. */
  datatype GpsEffect =
    | Ignore                      // undecodable JSON, or a class that is neither VERSION nor TPV
    | Watch                       // VERSION: send the watch command
    | Fix(grid: Option<string>)   // TPV: publish the grid, and remember it when there is one
    | Fail(error: Exc)            // a missing key: KeyError escapes

  /** `s[:6]`. */
  function Take6(s: string): (t: string)
    ensures t <= s && |t| == (if |s| < 6 then |s| else 6)
  {
    s[..if |s| < 6 then |s| else 6]
  }

  /** The reaction of `process_gps` to one parsed report. */
  function GpsReaction(j: Option<JsonObject>, gridSquare: (Json, Json) -> string): (e: GpsEffect)
    ensures j.None? ==> e == Ignore
    ensures e.Fail? ==> e.error == KeyError
  {
    match j
    case None => Ignore
    case Some(o) =>
      if "class" !in o then Fail(KeyError)
      else if o["class"] == JStr("VERSION") then Watch
      else if o["class"] == JStr("TPV") then
        if "lat" !in o then Fix(None)
        else if "lon" !in o then Fail(KeyError)
        else Fix(Some(Take6(gridSquare(o["lon"], o["lat"]))))
      else Ignore
  }

  /**
   * The reaction to each kind of report: VERSION asks for the watch command;
   * a TPV without `lat`, or with both `lat` and `lon`, publishes a fix, with a
   * grid exactly when `lat` is present; a missing `class`, or `lat` without
   * `lon`, raises KeyError.
   */
  lemma GpsReactionCases(o: JsonObject, gridSquare: (Json, Json) -> string)
    ensures var e := GpsReaction(Some(o), gridSquare);
      && (e == Watch <==> "class" in o && o["class"] == JStr("VERSION"))
      && (e.Fix? <==> "class" in o && o["class"] == JStr("TPV") && ("lat" in o ==> "lon" in o))
      && (e.Fail? <==>
            "class" !in o || (o["class"] == JStr("TPV") && "lat" in o && "lon" !in o))
      && (e.Fix? ==> (e.grid.Some? <==> "lat" in o))
      && (e.Fix? && e.grid.Some? ==> e.grid.value == Take6(gridSquare(o["lon"], o["lat"])))
  {
  }

  /** `s`, `n` times over, one copy after the other. */
  function Times<T>(s: seq<T>, n: nat): (t: seq<T>)
    ensures s == [] ==> t == []
  {
    if n == 0 then [] else Times(s, n - 1) + s
  }

  /** `n` copies of a single element: every position holds that element. */
  lemma {:induction false} TimesSingle<T>(x: T, n: nat)
    ensures |Times([x], n)| == n
    ensures forall i :: 0 <= i < n ==> Times([x], n)[i] == x
  {
    if n > 0 {
      TimesSingle(x, n - 1);
    }
  }

  /** The outcome of reacting to a report: a missing key escapes. */
  function OutcomeOf(e: GpsEffect): Outcome
  {
    if e.Fail? then Raised(e.error) else Done
  }

  /** The remembered GPS grid after reacting to a report. */
  function GridAfter(e: GpsEffect, grid: Option<string>): Option<string>
  {
    if e.Fix? && e.grid.Some? then e.grid else grid
  }

  /** The lines of a GPS read: `data.strip().split(b'\n')`. */
  function Lines(data: seq<byte>): seq<seq<byte>>
  {
    Split(Strip(data), [10])
  }

  /** The dispatcher's state and operations (`_Model`). */
  class Model {
    const env: Env
    const db: WsjtxDb
    var message: string
    var grid: Option<string>
    var r: seq<Decode>
    var settings: Session
    var running: bool
    var listeners: Registry
    /** Every `trigger_event` call so far, in order. */
    ghost var events: seq<Emission>

    /** Nothing ever sets `message` (set_time does nothing), and the store keeps its invariant. */
    ghost predicate Valid()
      reads this, db
    {
      message == "" && db.Valid()
    }

    /** The emission `trigger_event(topic, data)` makes now. */
    ghost function Emit(topic: Callback, data: Payload): Emission
      reads this`listeners
    {
      Emission(topic, data, Audience(listeners, topic))
    }

    constructor(env0: Env, settings0: Session, rows: seq<Row>, adif: Option<string>)
      requires HunterUnique(rows)
      ensures Valid() && fresh(db)
      ensures env == env0 && settings == settings0 && db.rows == rows && db.adif == adif
      ensures grid == None && r == [] && running && listeners == map[] && events == []
    {
      env := env0;
      db := new WsjtxDb(rows, adif);
      message := "";
      grid := None;
      r := [];
      settings := settings0;
      running := true;
      listeners := map[];
      events := [];
    }

    /** `trigger_event(topic, data)`: every listener of the topic is called with the data. */
    method TriggerEvent(topic: Callback, data: Payload)
      modifies this`events
      ensures events == old(events) + [Emit(topic, data)]
    {
      events := events + [Emit(topic, data)];
    }

    method AddEventListener(topic: Callback, fn: Listener)
      modifies this`listeners
      ensures listeners == Subscribe(old(listeners), topic, fn)
    {
      if topic in listeners {
        listeners := listeners[topic := listeners[topic] + {fn}];
      } else {
        listeners := listeners[topic := {fn}];
      }
    }

    method RemoveEventListener(topic: Callback, fn: Listener)
      modifies this`listeners
      ensures listeners == Unsubscribe(old(listeners), topic, fn)
    {
      if topic in listeners && fn in listeners[topic] {
        listeners := listeners[topic := listeners[topic] - {fn}];
      }
    }

    method NotifyQuit()
      modifies this`events
      ensures events == old(events) + [Emit(Quit, NoData)]
    {
      TriggerEvent(Quit, NoData);
    }

    /** Only the network GPS client's open/closed reports are published. */
    method NotifyState(id: ProcessID, open: bool)
      modifies this`events
      ensures events == old(events) + if id == GpsProcess then [Emit(GpsOpen, OpenFlag(open))] else []
    {
      match id
      case GpsProcess =>
        TriggerEvent(GpsOpen, OpenFlag(open));
      case _ =>
    }

    /** `do_call(msg)`: ask the radio app to answer the decode. */
    method DoCall(msg: Decode)
      modifies this`events
      ensures events == old(events) + [Emit(WsjtxSend, Send(ReplyFrame(msg)))]
    {
      TriggerEvent(WsjtxSend, Send(ReplyFrame(msg)));
    }

    /** `abort_tx`: halt with the flag set, then with it cleared. */
    method AbortTx()
      modifies this`events
      ensures events == old(events)
        + [Emit(WsjtxSend, Send(HaltFrame(true))), Emit(WsjtxSend, Send(HaltFrame(false)))]
    {
      TriggerEvent(WsjtxSend, Send(HaltFrame(true)));
      TriggerEvent(WsjtxSend, Send(HaltFrame(false)));
    }

    /** `set_time` does nothing: it has no modifies clause, so every field keeps its value. */
    method SetTime()
      ensures unchanged(this)
    {
    }

    /** `set_grid`: with a GPS grid known, store it as the operator grid and send it. */
    method SetGrid()
      modifies this`settings, this`events
      ensures grid.None? ==> settings == old(settings) && events == old(events)
      ensures grid.Some? ==>
        && settings == old(settings).(grid := grid.value)
        && events == old(events) + [Emit(WsjtxSend, Send(LocationFrame(grid.value)))]
    {
      if grid.Some? {
        settings := settings.(grid := grid.value);
        TriggerEvent(WsjtxSend, Send(LocationFrame(grid.value)));
      }
    }

    /** The emissions one report makes. */
    ghost function Emitted(e: GpsEffect): seq<Emission>
      reads this`listeners
    {
      match e
      case Watch => [Emit(GpsSend, GpsCommand(WatchCommand))]
      case Fix(g) => [Emit(GpsDecode, GpsData(g))]
      case _ => []
    }

    /** The effect of one GPS report on the grid and the events. */
    twostate predicate Reacted(e: GpsEffect, outcome: Outcome)
      reads this
    {
      outcome == OutcomeOf(e) && grid == GridAfter(e, old(grid)) && events == old(events) + Emitted(e)
    }

    /** The body of the loop of `process_gps`: react to one parsed report. */
    method HandleGpsReport(j: Option<JsonObject>) returns (outcome: Outcome)
      requires Valid()
      modifies this`grid, this`events
      ensures Reacted(GpsReaction(j, env.gridSquare), outcome)
    {
      outcome := Done;
      match j {
        case None =>
        case Some(o) =>
          if "class" !in o {
            return Raised(KeyError);
          }
          if o["class"] == JStr("VERSION") {
            TriggerEvent(GpsSend, GpsCommand(WatchCommand));
          } else if o["class"] == JStr("TPV") {
            var g: Option<string>;
            if "lat" in o {
              if "lon" !in o {
                return Raised(KeyError);
              }
              g := Some(Take6(env.gridSquare(o["lon"], o["lat"])));
              grid := g;
            } else {
              g := None;
            }
            TriggerEvent(GpsDecode, GpsData(g));
          }
      }
    }

    /**
     * What `process_gps(data)` does: the whole of `data` is parsed once per
     * line, so the single reaction to it happens once per line; an escaping
     * KeyError stops at the first line.
     */
    twostate predicate GpsHandled(data: seq<byte>, outcome: Outcome)
      reads this
    {
      var e := GpsReaction(env.loads(data), env.gridSquare);
      && outcome == OutcomeOf(e)
      && grid == GridAfter(e, old(grid))
      && events == old(events) + Times(Emitted(e), if e.Fail? then 0 else |Lines(data)|)
    }

    /**
     * `process_gps(data)`. The branch for a pending `message` is not taken:
     * `message` is always empty (see Valid).
     */
    method ProcessGps(data: seq<byte>) returns (outcome: Outcome)
      requires Valid()
      modifies this`grid, this`events
      ensures GpsHandled(data, outcome)
    {
      var lines := Lines(data);
      ghost var effect := GpsReaction(env.loads(data), env.gridSquare);
      var k := 0;
      while k < |lines|
        invariant 0 <= k <= |lines|
        invariant effect.Fail? ==> k == 0
        invariant grid == if k == 0 then old(grid) else GridAfter(effect, old(grid))
        invariant events == old(events) + Times(Emitted(effect), k)
      {
        outcome := HandleGpsReport(env.loads(data));
        if outcome.Raised? {
          return;
        }
        k := k + 1;
      }
      outcome := Done;
    }

    /**
     * `process_decodes`: file each buffered decode, sort the three buckets and
     * publish them, or let IndexError escape for a text too short to index.
     * The contact-log lookup is commented out in the source, so nothing is
     * filtered against the log.
     */
    method ProcessDecodes() returns (outcome: Outcome)
      modifies this`events
      ensures match FlushOutcome(r, settings.deCall)
        case NoCalls => outcome == Done && events == old(events)
        case Crashed => outcome == Raised(IndexError) && events == old(events)
        case Calls(p, m, c) =>
          outcome == Done && events == old(events) + [Emit(WsjtxCalls, CallLists(p, m, c))]
    {
      if |r| == 0 {
        return Done;
      }
      var pota, cq, call := [], [], [];
      ghost var filed := Filing(settings.deCall);
      var i := 0;
      while i < |r|
        invariant 0 <= i <= |r|
        invariant pota == Select(r[..i], filed, Pota)
        invariant call == Select(r[..i], filed, Me)
        invariant cq == Select(r[..i], filed, Cq)
        invariant forall k :: 0 <= k < i ==> Classify(r[k].message, settings.deCall) != Malformed
        invariant events == old(events)
      {
        var d := r[i];
        // Which list `append` names for this decode; Dropped is `continue`.
        var append := Classify(d.message, settings.deCall);
        assert r[..i + 1] == r[..i] + [d];
        SelectSnoc(r[..i], d, filed, Pota);
        SelectSnoc(r[..i], d, filed, Me);
        SelectSnoc(r[..i], d, filed, Cq);
        match append {
          case Malformed =>
            FlushCrashes(r, settings.deCall);
            return Raised(IndexError);
          case Pota => pota := pota + [d];
          case Me => call := call + [d];
          case Cq => cq := cq + [d];
          case Dropped =>
        }
        i := i + 1;
      }
      assert r[..i] == r;
      FlushPublishes(r, settings.deCall);
      pota := SortBySnr(pota);
      call := SortBySnr(call);
      cq := SortBySnr(cq);
      TriggerEvent(WsjtxCalls, CallLists(pota, call, cq));
      outcome := Done;
    }

    /**
     * What a Status message does: the settings are updated and the status is
     * published; when the radio app is not decoding, the buffer is flushed and
     * then emptied, unless the flush raised.
     */
    twostate predicate StatusHandled(s: Status, outcome: Outcome)
      reads this
    {
      var st := Emit(WsjtxStatus, StatusReport(s));
      && settings == env.updateStatus(old(settings), s)
      && if s.decoding then
           outcome == Done && r == old(r) && events == old(events) + [st]
         else match FlushOutcome(old(r), settings.deCall)
           case NoCalls => outcome == Done && r == [] && events == old(events) + [st]
           case Crashed => outcome == Raised(IndexError) && r == old(r) && events == old(events) + [st]
           case Calls(p, m, c) =>
             outcome == Done && r == []
             && events == old(events) + [st] + [Emit(WsjtxCalls, CallLists(p, m, c))]
    }

    /** The Status case of `process_wsjtx`. */
    method HandleStatus(s: Status) returns (outcome: Outcome)
      modifies this`events, this`settings, this`r
      ensures StatusHandled(s, outcome)
    {
      settings := env.updateStatus(settings, s);
      TriggerEvent(WsjtxStatus, StatusReport(s));
      outcome := Done;
      if !s.decoding {
        outcome := ProcessDecodes();
        if outcome.Raised? {
          return;
        }
        r := [];
      }
    }

    /**
     * What `process_wsjtx(data)` does with each message type: a heartbeat is
     * answered, a status updates the settings, is published and, when the
     * radio app is not decoding, flushes and then empties the buffer; a decode
     * is appended to the buffer; a logged contact goes to the store and ADIF
     * text to the export sink.
     */
    twostate predicate WsjtxHandled(data: seq<byte>, outcome: Outcome)
      reads this, db
    {
      match env.parse(data)
      case HeartbeatMsg =>
        && outcome == Done && r == old(r) && settings == old(settings) && unchanged(db)
        && events == old(events) + [Emit(WsjtxSend, Send(HeartbeatFrame))]
      case StatusMsg(s) => StatusHandled(s, outcome) && unchanged(db)
      case DecodeMsg(d) =>
        && outcome == Done && r == old(r) + [d] && settings == old(settings) && unchanged(db)
        && events == old(events)
      case LoggedMsg(q) =>
        && outcome == Done && r == old(r) && settings == old(settings) && events == old(events)
        && db.rows == InsertOrReplace(old(db.rows), NewRow(q, settings)) && db.adif == old(db.adif)
      case AdifMsg(text) =>
        && r == old(r) && settings == old(settings) && events == old(events) && db.rows == old(db.rows)
        && (match AppendLog(old(db.adif), text)
            case Wrote(sink) => outcome == Done && db.adif == Some(sink)
            case NoHeader => outcome == Raised(IndexError) && db.adif == old(db.adif))
      case OtherMsg(_) =>
        && outcome == Done && r == old(r) && settings == old(settings) && unchanged(db)
        && events == old(events)
    }

    /** `process_wsjtx(data)`. */
    method ProcessWsjtx(data: seq<byte>) returns (outcome: Outcome)
      requires Valid()
      modifies this`events, this`settings, this`r, db
      ensures Valid()
      ensures WsjtxHandled(data, outcome)
    {
      var d := env.parse(data);
      match d
      case HeartbeatMsg =>
        TriggerEvent(WsjtxSend, Send(HeartbeatFrame));
        outcome := Done;
      case StatusMsg(s) =>
        outcome := HandleStatus(s);
      case DecodeMsg(x) =>
        r := r + [x];
        outcome := Done;
      case LoggedMsg(q) =>
        db.Add(q, settings);
        outcome := Done;
      case AdifMsg(text) =>
        outcome := db.AddLog(text);
      case OtherMsg(_) =>
        outcome := Done;
    }

    /** `process(id, data)`: GPS and radio-app data are handled; other producers are ignored. */
    method Process(id: ProcessID, data: seq<byte>) returns (outcome: Outcome)
      requires Valid()
      modifies this`grid, this`events, this`settings, this`r, db
      ensures Valid()
      ensures id == GpsProcess ==>
        GpsHandled(data, outcome) && r == old(r) && settings == old(settings) && unchanged(db)
      ensures id == WsjtxProcess ==> WsjtxHandled(data, outcome) && grid == old(grid)
      ensures id != GpsProcess && id != WsjtxProcess ==> outcome == Done && unchanged(this) && unchanged(db)
    {
      match id
      case GpsProcess =>
        outcome := ProcessGps(data);
      case WsjtxProcess =>
        outcome := ProcessWsjtx(data);
      case _ =>
        outcome := Done;
    }

    /** `close`: stop the receive loops. */
    method Close()
      modifies this`running
      ensures !running
    {
      running := false;
    }
  }
}
