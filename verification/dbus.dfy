/**
 The part of a D-Bus message the relay builds: its type, its header fields and
 its body of typed values, following the message format of the D-Bus
 Specification. Wire encoding and transport are not modelled.
 */
module DBus {
  import opened Wrappers

  /** The four message types of the D-Bus Specification (wire codes 1 to 4). */
  datatype MessageType = MethodCall | MethodReturn | Error | Signal

  /** The header fields of the D-Bus Specification (wire codes 1 to 9, in this order). */
  datatype HeaderField =
    | Path | Interface | Member | ErrorName | ReplySerial
    | Destination | Sender | Signature | UnixFds

  /** The typed values the relay places in headers and in the body. */
  datatype Variant =
    | StringValue(str: string)
    | ObjectPathValue(path: string)
    | SignatureValue(sig: string)

  /** A message: type, header fields mapped to values, and the body's argument list. */
  datatype Message = Message(kind: MessageType, headers: map<HeaderField, Variant>, body: seq<Variant>)

  /** The single-character type code of a value: STRING is 's', OBJECT_PATH is 'o', SIGNATURE is 'g'. */
  function TypeCode(v: Variant): char {
    match v
    case StringValue(_) => 's'
    case ObjectPathValue(_) => 'o'
    case SignatureValue(_) => 'g'
  }

  /** The signature of a list of values (godbus `SignatureOf`): their type codes in order. */
  function SignatureOf(vs: seq<Variant>): (r: string)
    ensures |r| == |vs|
    ensures forall i :: 0 <= i < |vs| ==> r[i] == TypeCode(vs[i])
  {
    if vs == [] then "" else SignatureOf(vs[..|vs| - 1]) + [TypeCode(vs[|vs| - 1])]
  }

  /** The bus address a signal is sent to. */
  datatype Target = Target(destination: string, path: string, iface: string, member: string)

  /** The text of a string-typed header field, if the message carries one. */
  function StringHeader(m: Message, f: HeaderField): Option<string> {
    if f in m.headers && m.headers[f].StringValue? then Some(m.headers[f].str) else None
  }

  /**
   Reads the address of a signal back from its headers: destination, interface
   and member must be strings and the path an object path; anything else is `None`.
   */
  function SignalTarget(m: Message): Option<Target> {
    if m.kind == Signal
       && StringHeader(m, Destination).Some?
       && Path in m.headers && m.headers[Path].ObjectPathValue?
       && StringHeader(m, Interface).Some?
       && StringHeader(m, Member).Some?
    then Some(Target(StringHeader(m, Destination).value, m.headers[Path].path,
                     StringHeader(m, Interface).value, StringHeader(m, Member).value))
    else None
  }

  /**
   Reads the body back as a list of strings, provided the signature header
   describes the body and every argument is a string.
   */
  function StringArgs(m: Message): Option<seq<string>> {
    if Signature in m.headers && m.headers[Signature] == SignatureValue(SignatureOf(m.body))
       && (forall i :: 0 <= i < |m.body| ==> m.body[i].StringValue?)
    then Some(seq(|m.body|, i requires 0 <= i < |m.body| && m.body[i].StringValue? => m.body[i].str))
    else None
  }
}
