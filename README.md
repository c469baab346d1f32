# wsjtx-mvc-udp dispatcher and contact store, in Dafny

This project models the two sequential components of a helper for
amateur-radio operators. The helper sits beside a digital-mode radio app and
a GPS receiver.

- **The dispatcher** (`_Model`, model/model.py), modelled by class
  `Dispatch.Model`. It keeps these fields:
  - the decode buffer `r`;
  - the last GPS grid;
  - the (always empty) pending `message`;
  - the event-listener registry;
  - the session settings;
  - the `running` flag.

  Its operations:
  - subscribe and unsubscribe listeners, and publish events;
  - send reply, halt and location commands;
  - react to gpsd JSON reports (`VERSION`, `TPV`);
  - route radio-app messages (heartbeat, status, decode, logged QSO, ADIF)
    into the buffer, the flush and the contact store.

  Every event published is appended to a ghost trace `events`. Each entry
  records the topic, the data and the set of listeners subscribed at that
  moment.
- **The flush** (`process_decodes`), modelled by module `Flush` as pure
  functions plus a method with a loop. Each buffered decode's text is split
  on spaces. Its first tokens file it as POTA, ME (addressed to the
  operator's call), CQ or dropped. Each bucket is sorted by non-increasing
  SNR. The sort is stable, so equal SNRs keep their arrival order.
- **The contact store** (`WsjtxDb`, model/wsjtx_db.py), modelled by module
  `ContactLog`:
  - the `qsos` table as a sequence of rows, under its two unique indices
    (`hunter` and `activator`);
  - SQLite's `INSERT OR REPLACE`: every row that conflicts on either index is
    deleted, then the new row is inserted;
  - the six-column `exists` query and the `mode_lu` mode table;
  - the ADIF export file, as an optional string (absent until first written).
- **Module `Text`** models Python's `str.split(sep)` as `Split` and
  `bytes.strip()` as `Strip`. It proves that splitting loses nothing and
  leaves no separator behind, and it states which texts produce which first
  tokens.

An exception that escapes an operation in the source is returned as
`Outcome.Raised(...)` instead of being excluded by a precondition. Three
cases produce one:
- an `IndexError` from a decode text with too few tokens;
- a `KeyError` from a GPS report without `class`, or with `lat` but no
  `lon`;
- an `IndexError` from ADIF text without `<EOH>\n` appended to an existing
  file.

Several collaborators are not part of this model and are parameters of the
dispatcher, held in `Dispatch.Env`:
- the radio-app parser `rx_msg.parse`;
- `json.loads`, whose result is `None` for a `JSONDecodeError`;
- `utility.grid_square`;
- `Settings.update_status`.

The outbound encoders (`heartbeat`, `reply`, `halt_tx`, `location`) are
represented by the symbolic frames of `Types.Frame`.

Behaviours of the code that a reader might not expect, all modelled as written:
- `exists` matches all six activator columns (call, mode, ordinal, band, park
  and shift), not only the four hunter columns (model/wsjtx_db.py:72-89).
- The contact-log lookup inside the flush is commented out
  (model/model.py:175). Nothing is filtered against the log.
- Every Status with `decoding` false flushes and then empties the buffer,
  including one that follows another non-decoding Status (model/model.py:192-194).
- When the flush raises, the buffer is not emptied, because `self.r = []` is
  never reached.
- `process` handles only the network GPS client and the radio app. Data from
  the serial GPS reader or from the main process is ignored
  (model/model.py:122-127).
- The unchecked `msg_parse[1]` and `msg_parse[2]` (model/model.py:163-170)
  are modelled as the `IndexError` they raise, not as a precondition on the
  token count.

## Model

| member | source | states |
|---|---|---|
| Text.Split | model/model.py:161 | `str.split(sep)` has at least one part; it has no further contract of its own, and `SplitJoin` states what it computes: the parts joined by `sep` give back the input, and no part contains `sep` |
| Text.FindFromFirst | model/model.py:161 | the index found is the first occurrence of the separator at or after the start position; `None` means there is none |
| Text.SplitJoin | model/model.py:161 | joining the parts of `split(sep)` with `sep` gives back the input, and no part contains `sep` |
| Text.HeadToken | model/model.py:161-170 | for a separator-free word `w`, the first token of `s.split(c)` is `w` with more tokens after it exactly when `s` starts with `w + c`; the remaining tokens are then the split of the rest |
| Text.SoleToken | model/model.py:161-170 | for a separator-free word `w`, `s.split(c)` is exactly `[w]` if and only if `s == w` |
| Text.Strip | model/model.py:130 | no contract of its own: `bytes.strip()` is the trailing trim of the leading trim, whose results `TrimStartRemovesSpace` and `TrimEndRemovesSpace` characterise |
| Text.TrimStartRemovesSpace | model/model.py:130 | every removed leading byte is ASCII whitespace, and the result is empty or starts with a non-whitespace byte |
| Text.TrimEndRemovesSpace | model/model.py:130 | every removed trailing byte is ASCII whitespace, and the result is empty or ends with a non-whitespace byte |
| Flush.Classify | model/model.py:161-173 | no contract of its own: the bucket a text is filed in (POTA, ME, CQ, dropped or IndexError), characterised on the raw text by `ClassifyByPrefix` |
| Flush.Select | model/model.py:159-176 | no contract of its own: the decodes appended to one bucket, in buffer order; `SelectMembers` and `SelectCounts` state its members and their multiplicities |
| Flush.ClassifyByPrefix | model/model.py:159-173 | in terms of the raw text: POTA exactly when it starts with `CQ POTA `; CQ exactly when it starts with `CQ ` but not `CQ POTA ` and is not `CQ POTA`; ME exactly when the call has no space, the text starts with the call and a space, and it is not a CQ; IndexError exactly for `CQ`, `CQ POTA` and the bare call |
| Flush.SelectMembers | model/model.py:159-176 | a bucket holds a decode if and only if the buffer holds it and it is filed in that bucket |
| Flush.SelectCounts | model/model.py:159-176 | a bucket holds each decode filed there as often as the buffer does, and no other decode |
| Flush.InsertDescending | model/model.py:177-179 | inserting by SNR into a non-increasing list keeps it non-increasing |
| Flush.SortBySnr | model/model.py:177-179 | the sorted bucket is a permutation of the bucket and is in non-increasing SNR order |
| Flush.SortStable | model/model.py:177-179 | for every SNR value, the decodes with that SNR appear in the sorted bucket in the same order as in the bucket |
| Flush.FlushOutcome | model/model.py:153-155 | a flush returns normally without publishing exactly when the buffer is empty |
| Flush.FlushCrashes | model/model.py:159-170 | a flush raises IndexError exactly when the buffer is non-empty and holds a text with too few tokens for its bucket |
| Flush.FlushPublishes | model/model.py:153-180 | a non-empty buffer without such texts publishes its three buckets, each sorted |
| Flush.BucketsPartition | model/model.py:159-176 | without malformed texts, the POTA, ME, CQ and dropped decodes together are exactly the buffer (as multisets) |
| Flush.SortedBucket | model/model.py:177-179 | sorting a bucket keeps its members and the arrival order per SNR value |
| Flush.FlushBuckets | model/model.py:153-180 | a non-empty buffer without malformed texts publishes three lists, each sorted by non-increasing SNR and holding exactly the decodes filed there; together with the dropped decodes they are the buffer, and ties keep arrival order |
| ContactLog.HunterUniqueIsActivatorUnique | model/wsjtx_db.py:41-54 | a table unique on the hunter columns is unique on the activator columns too |
| ContactLog.InsertOrReplace | model/wsjtx_db.py:93 | no contract of its own: `insert or replace`, whose effect `InsertOrReplaceUnique`, `InsertOrReplaceSole` and `InsertOrReplaceKeepsOthers` state |
| ContactLog.Surviving | model/wsjtx_db.py:93 | REPLACE keeps each row that conflicts on neither index as often as it was there, and deletes every row that conflicts |
| ContactLog.ConflictsIsHunterMatch | model/wsjtx_db.py:41-54 | a conflict on either index is the same as sharing the hunter key |
| ContactLog.InsertOrReplaceUnique | model/wsjtx_db.py:41-54 | insert-or-replace keeps the hunter key unique |
| ContactLog.InsertOrReplaceSole | model/wsjtx_db.py:92-141 | after `add`, the new row is the last row, and it is the only row carrying its hunter key |
| ContactLog.InsertOrReplaceKeepsOthers | model/wsjtx_db.py:92-141 | `add` leaves every row of a different hunter key in the table as often as it was there |
| ContactLog.HasRow | model/wsjtx_db.py:72-80 | `select exists(...)` is true if and only if some row carries the queried six columns |
| ContactLog.ModeLu | model/wsjtx_db.py:62-69 | the mode name is non-empty exactly for the eight single marker characters, and it is always one of the eight names or `''` |
| ContactLog.ExistsAfterAdd | model/wsjtx_db.py:71-141 | right after logging a contact, `exists` finds its call for a decode whose marker maps to the contact's mode, in the same session context |
| ContactLog.ExistsElsewhereUnchanged | model/wsjtx_db.py:71-141 | logging a contact changes no `exists` answer for a different call, mode, ordinal or band |
| ContactLog.AddDisplacesOtherPark | model/wsjtx_db.py:41-141 | logging a call already logged from another park or shift deletes the earlier row, so `exists` no longer finds the earlier context |
| ContactLog.AppendLog | model/wsjtx_db.py:143-148 | no contract of its own: the new export file, or the failure of `split('<EOH>\n')[1]`, as stated by `AppendLogSegment` |
| ContactLog.AppendLogSegment | model/wsjtx_db.py:143-148 | the export is append-only; a missing file receives the text verbatim; an existing file fails exactly when the text has no `<EOH>\n`, and otherwise receives the text between the first `<EOH>\n` and the next one (or the end) |
| ContactLog.WsjtxDb.constructor | model/wsjtx_db.py:14-60 | opens the store over a table that satisfies the unique indices, with the given export file |
| ContactLog.WsjtxDb.Exists | model/wsjtx_db.py:71-90 | true if and only if some row matches the call, `mode_lu.get(mode, '')`, the session ordinal, band, park and shift |
| ContactLog.WsjtxDb.Add | model/wsjtx_db.py:92-141 | the table becomes the insert-or-replace of the session-stamped row and keeps its unique hunter key; its last row holds the logged record with the session's ordinal, band, park and shift, and it is the only row with the hunter key (call, mode, session ordinal, session band); every row of another hunter key is kept as often as it was there |
| ContactLog.WsjtxDb.AddLog | model/wsjtx_db.py:143-148 | the export file becomes what `AppendLog` says: a missing file is created holding the text verbatim; an existing file is unchanged and IndexError escapes when the text has no `<EOH>\n` |
| Dispatch.Subscribe | model/model.py:45-49 | after subscribing, the topic's audience gains the listener, creating the topic when missing, and every other topic is unchanged |
| Dispatch.Unsubscribe | model/model.py:51-55 | after unsubscribing, the topic's audience loses the listener; a missing topic or listener changes nothing |
| Dispatch.UnsubscribeUndoesSubscribe | model/model.py:45-55 | removing a listener right after adding a new one restores every topic's audience |
| Dispatch.Take6 | model/model.py:143 | `s[:6]` is the prefix of `s` of length six, or all of `s` when it is shorter |
| Dispatch.GpsReaction | model/model.py:131-151 | undecodable JSON is ignored, and any failure is a KeyError |
| Dispatch.GpsReactionCases | model/model.py:133-149 | VERSION asks for the watch command exactly when the class is VERSION; a fix is published exactly for TPV without `lat` or with both `lat` and `lon`, with a grid exactly when `lat` is present, that grid being the first six characters of `grid_square(lon, lat)`; KeyError escapes exactly for a missing `class` or a TPV with `lat` but no `lon` |
| Dispatch.Lines | model/model.py:130 | no contract of its own: `data.strip().split(b'\n')`, the loop range of `process_gps`, whose reaction is repeated once per line in `GpsHandled` |
| Dispatch.Times | model/model.py:130-132 | repeating a reaction that publishes nothing publishes nothing |
| Dispatch.TimesSingle | model/model.py:130-137 | repeating a single event puts that event at every position |
| Dispatch.Model.constructor | model/model.py:22-31 | the dispatcher starts running, with an empty buffer, no grid, no listeners, no events and a store in a valid state |
| Dispatch.Model.TriggerEvent | model/model.py:57-62 | appends exactly one event: the topic, the data and the listeners subscribed to the topic (none for an unknown topic) |
| Dispatch.Model.AddEventListener | model/model.py:45-49 | the registry becomes `Subscribe` of the old one |
| Dispatch.Model.RemoveEventListener | model/model.py:51-55 | the registry becomes `Unsubscribe` of the old one |
| Dispatch.Model.NotifyQuit | model/model.py:33-34 | publishes exactly one QUIT event without data |
| Dispatch.Model.NotifyState | model/model.py:36-42 | the network GPS client's state is published as GPS_OPEN with its flag; any other producer's state publishes nothing |
| Dispatch.Model.DoCall | model/model.py:100-102 | publishes exactly one WSJTX_SEND carrying `reply(msg)` |
| Dispatch.Model.AbortTx | model/model.py:104-107 | publishes WSJTX_SEND with `halt_tx(True)` and then with `halt_tx(False)`, in that order |
| Dispatch.Model.SetTime | model/model.py:109-111 | `set_time` is a no-op: every field of the dispatcher is unchanged |
| Dispatch.Model.SetGrid | model/model.py:113-117 | without a GPS grid nothing changes; otherwise the settings' grid becomes the GPS grid and `location(grid)` is published |
| Dispatch.Model.HandleGpsReport | model/model.py:131-151 | one report: VERSION publishes the watch command; TPV publishes its grid or None and remembers a grid; errors change nothing |
| Dispatch.Model.ProcessGps | model/model.py:129-151 | the report parsed from the whole buffer takes effect once per line of the stripped buffer; a KeyError escapes before any effect |
| Dispatch.Model.ProcessDecodes | model/model.py:153-180 | publishes nothing for an empty buffer, raises IndexError without publishing for a malformed text, and otherwise publishes exactly one WSJTX_CALLS with the sorted (pota, call, cq) lists of `FlushOutcome` |
| Dispatch.Model.HandleStatus | model/model.py:189-194 | a status updates the settings and is published first; while decoding the buffer is kept; otherwise the flush runs, its WSJTX_CALLS event (if any) follows the status, and the buffer is emptied unless the flush raised |
| Dispatch.Model.ProcessWsjtx | model/model.py:183-200 | a heartbeat is answered once; a status updates the settings and is published, then a non-decoding status flushes and empties the buffer (kept when the flush raises); a decode only appends to the buffer; a logged contact goes to the store; ADIF text goes to the export file |
| Dispatch.Model.Process | model/model.py:122-127 | GPS data is handled as `process_gps`, radio-app data as `process_wsjtx`, and data from any other producer changes nothing |
| Dispatch.Model.Close | model/model.py:203-204 | the dispatcher stops running |

## Left out

- The parser `rx_msg.parse`, the encoders of `tx_msg`, `utility.grid_square` and `json.loads` are not part of this model. They are parameters, or symbolic frames.
- `Settings` as shown (model/settings.py) has no `update_status`, `de_call`, `dbn` or `adifn`. The settings are a `Session` value, and `update_status` is an uninterpreted function of the old session and the status.
- JSON that is valid but is not an object (a list or a number): `j['class']` would raise TypeError. `json.loads` is modelled as returning an object or nothing.
- `to_datetime(...).timestamp()` (model/wsjtx_db.py:119, 129) is float/datetime conversion. Timestamps are kept as the parser's date-time parts.
- SQLite NULL columns: every column is treated as non-null, so the unique indices always apply. The table's row order is not promised by SQLite; the model appends the new row at the end.
- Connection handling, `con.commit`, file existence and opening are not modelled. The ADIF file's existence is whether the sink is `Some`.
- `close` saving the settings and closing the store (model/model.py:205-206) are I/O. Only `running := false` is modelled.
- Threads, the transport adapters, sockets, the serial port, the GUI, config-file properties, `set_park`, `save_main_window_position`, and the unused `Lock` and `Queue` fields are not modelled.
- Dispatch.Model.TriggerEvent: the order in which the listeners of one topic are called (Python set iteration order) is not modelled. A listener that raises KeyError, which would stop the remaining listeners silently, is not modelled either. The trace records the set of listeners reached.
- The string topic `'gps_decode'` (model/model.py:140, and the subscription in controller/main.py:16) is not a `Callback`. The registry is keyed by `Callback` only.
- The `message > ''` branch of `process_gps` (model/model.py:139-141) cannot be reached, because nothing ever sets `message` (`set_time` is a no-op). `Model.Valid` states `message == ""`, and `ProcessGps` and `HandleGpsReport` require it.
- Python's in-place `list.sort` on the local bucket lists is modelled as the pure function `SortBySnr`. The lists are local, so no aliasing is lost.
