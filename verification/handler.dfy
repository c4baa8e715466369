/**
 The HTTP side of the relay: the result text of a send, the construction of
 the outbound signal (`raiseDBusSignal`) and the handler of `POST /:windowID`
 (`setWindowNotifications`). JSON decoding, the bus send and the logger are
 outside collaborators; their outcomes are inputs and their uses are recorded
 as an ordered list of effects.
 */
module Handler {
  import opened Wrappers
  import Text
  import DBus
  import opened RelayService

  /** The decoded request body (JSON keys "label" and "color"); a field absent from the JSON keeps Go's zero value, the empty string. */
  datatype Notification = Notification(labelText: string, color: string)

  const StatusOK := 200
  const StatusBadRequest := 400
  const StatusInternalServerError := 500

  const MissingWindowID := "missing window ID"
  const MalformedBody := "malformed body"
  const SignalFailed := "unable to raise signal:"

  /** Reads a result text back into the error it reports; `None` for text no error produces. */
  function ParseResultText(t: string): Option<Option<string>> {
    if t == "OK" then Some(None)
    else if |t| >= 4 && t[..4] == "err:" then Some(Some(t[4..]))
    else None
  }

  /**
   `resultText`: "OK" for a nil error, otherwise "err:" followed by the error's
   text. The text loses nothing: it reads back as the error it was made from.
   */
  function ResultText(err: Option<string>): (t: string)
    ensures ParseResultText(t) == Some(err)
  {
    match err
    case None => "OK"
    case Some(msg) =>
      var t := "err:" + msg;
      assert t[..4] == "err:" && t[4..] == msg;
      t
  }

  /** Distinct errors give distinct texts; in particular success never reads like a failure. */
  lemma ResultTextInjective(a: Option<string>, b: Option<string>)
    ensures ResultText(a) == ResultText(b) <==> a == b
  {
  }

  /** The body of the signal: window ID, label and color, in that order. */
  function SignalBody(windowID: string, n: Notification): seq<DBus.Variant> {
    [DBus.StringValue(windowID), DBus.StringValue(n.labelText), DBus.StringValue(n.color)]
  }

  /**
   The message `raiseDBusSignal` sends: a signal with exactly five headers,
   interface, member, path, destination from the relay and the signature of
   the body, and the three-string body.
   */
  function BuildSignal(r: Relay, windowID: string, n: Notification): (m: DBus.Message)
    ensures m.kind == DBus.Signal
    ensures m.headers.Keys == {DBus.Interface, DBus.Member, DBus.Path, DBus.Signature, DBus.Destination}
    ensures m.headers[DBus.Signature] == DBus.SignatureValue("sss")
  {
    var body := SignalBody(windowID, n);
    assert DBus.SignatureOf(body) == "sss" by {
      var sig := DBus.SignatureOf(body);
      assert sig[0] == 's' && sig[1] == 's' && sig[2] == 's';
    }
    DBus.Message(
      DBus.Signal,
      map[DBus.Interface := DBus.StringValue(r.iface),
          DBus.Member := DBus.StringValue(r.member),
          DBus.Path := DBus.ObjectPathValue(r.path),
          DBus.Signature := DBus.SignatureValue(DBus.SignatureOf(body)),
          DBus.Destination := DBus.StringValue(r.destination)],
      body)
  }

  /** Reading the built signal back gives the relay's address and exactly the three strings. */
  lemma BuildSignalReadsBack(r: Relay, windowID: string, n: Notification)
    ensures DBus.SignalTarget(BuildSignal(r, windowID, n))
         == Some(DBus.Target(r.destination, r.path, r.iface, r.member))
    ensures DBus.StringArgs(BuildSignal(r, windowID, n)) == Some([windowID, n.labelText, n.color])
  {
    var m := BuildSignal(r, windowID, n);
    var args := DBus.StringArgs(m);
    assert m.headers[DBus.Signature] == DBus.SignatureValue(DBus.SignatureOf(m.body));
    assert forall i :: 0 <= i < |m.body| ==> m.body[i].StringValue?;
    assert args.Some?;
    assert |args.value| == 3;
    assert args.value[0] == windowID && args.value[1] == n.labelText && args.value[2] == n.color;
    assert args.value == [windowID, n.labelText, n.color];
  }

  /** What handling a request does beyond responding, in order. */
  datatype Effect =
    | SendSignal(via: Conn, msg: DBus.Message)
    | LogEntry(to: Logger, fields: seq<(string, string)>)

  /** The HTTP response: status, message, and the effects performed on the way. */
  datatype Response = Response(status: int, body: string, effects: seq<Effect>)

  /** The structured entry logged after a send: keys windowID, label, color, result, in that order. */
  function SendLog(windowID: string, n: Notification, err: Option<string>): seq<(string, string)> {
    [("windowID", windowID), ("label", n.labelText), ("color", n.color), ("result", ResultText(err))]
  }

  /**
   `setWindowNotifications`: trims the window ID and rejects an empty one,
   rejects a body that does not decode, otherwise sends one signal, logs one
   entry, and answers 200, or 500 with the send error. `decoded` is the outcome
   of decoding the body and `sendErr` the error the send returns.
   */
  function SetWindowNotifications(r: Relay, rawWindowID: string, decoded: Option<Notification>, sendErr: Option<string>)
    : (resp: Response)
    requires r.bus.Connected?
    ensures resp.status in {StatusOK, StatusBadRequest, StatusInternalServerError}
    ensures resp.status == StatusBadRequest <==> resp.effects == []
    ensures resp.status == StatusOK ==> resp.body == ""
  {
    var windowID := Text.TrimSpace(rawWindowID);
    if windowID == "" then
      Response(StatusBadRequest, MissingWindowID, [])
    else match decoded
      case None => Response(StatusBadRequest, MalformedBody, [])
      case Some(n) =>
        var sent := SendSignal(r.bus.conn, BuildSignal(r, windowID, n));
        var logged := LogEntry(r.log, SendLog(windowID, n, sendErr));
        match sendErr
        case Some(e) => Response(StatusInternalServerError, SignalFailed + e, [sent, logged])
        case None => Response(StatusOK, "", [sent, logged])
  }

  /** A window ID that is empty or all white space is refused before anything else happens. */
  lemma BlankWindowIDRejected(r: Relay, rawWindowID: string, decoded: Option<Notification>, sendErr: Option<string>)
    requires r.bus.Connected?
    requires Text.AllSpace(rawWindowID)
    ensures SetWindowNotifications(r, rawWindowID, decoded, sendErr) == Response(StatusBadRequest, MissingWindowID, [])
  {
    Text.TrimSpaceEmptyIff(rawWindowID);
  }

  /** A body that does not decode is refused, with no send and no log entry. */
  lemma MalformedBodyRejected(r: Relay, rawWindowID: string, sendErr: Option<string>)
    requires r.bus.Connected?
    requires !Text.AllSpace(rawWindowID)
    ensures SetWindowNotifications(r, rawWindowID, None, sendErr) == Response(StatusBadRequest, MalformedBody, [])
  {
    Text.TrimSpaceEmptyIff(rawWindowID);
  }

  /**
   An accepted request sends exactly one signal over the relay's connection,
   addressed to the configured destination, path, interface and member and
   carrying the trimmed window ID, label and color; then it logs exactly one
   entry whose result is the send's result text.
   */
  lemma AcceptedRequestSendsThenLogs(r: Relay, rawWindowID: string, n: Notification, sendErr: Option<string>)
    requires r.bus.Connected?
    requires !Text.AllSpace(rawWindowID)
    ensures var windowID := Text.TrimSpace(rawWindowID);
            var msg := BuildSignal(r, windowID, n);
            && SetWindowNotifications(r, rawWindowID, Some(n), sendErr).effects
               == [SendSignal(r.bus.conn, msg),
                   LogEntry(r.log, [("windowID", windowID), ("label", n.labelText), ("color", n.color),
                                    ("result", ResultText(sendErr))])]
            && DBus.SignalTarget(msg) == Some(DBus.Target(r.destination, r.path, r.iface, r.member))
            && DBus.StringArgs(msg) == Some([windowID, n.labelText, n.color])
  {
    Text.TrimSpaceEmptyIff(rawWindowID);
    BuildSignalReadsBack(r, Text.TrimSpace(rawWindowID), n);
  }

  /** An accepted request answers 500 with the send error after the fixed prefix, or 200 with nothing more. */
  lemma AcceptedRequestStatus(r: Relay, rawWindowID: string, n: Notification, sendErr: Option<string>)
    requires r.bus.Connected?
    requires !Text.AllSpace(rawWindowID)
    ensures var resp := SetWindowNotifications(r, rawWindowID, Some(n), sendErr);
            match sendErr
            case Some(e) => resp.status == StatusInternalServerError && resp.body == "unable to raise signal:" + e
            case None => resp.status == StatusOK && resp.body == ""
  {
    Text.TrimSpaceEmptyIff(rawWindowID);
  }

  /** Exactly the requests with a non-blank window ID and a decodable body reach the bus. */
  lemma SendIffAccepted(r: Relay, rawWindowID: string, decoded: Option<Notification>, sendErr: Option<string>)
    requires r.bus.Connected?
    ensures var resp := SetWindowNotifications(r, rawWindowID, decoded, sendErr);
            (exists k :: 0 <= k < |resp.effects| && resp.effects[k].SendSignal?)
            <==> !Text.AllSpace(rawWindowID) && decoded.Some?
  {
    Text.TrimSpaceEmptyIff(rawWindowID);
    var resp := SetWindowNotifications(r, rawWindowID, decoded, sendErr);
    if !Text.AllSpace(rawWindowID) && decoded.Some? {
      assert resp.effects[0].SendSignal?;
    }
  }
}
