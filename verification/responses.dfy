/** What the device sends back and what the client hands to its callers:
    the reply entries of `/var/readWriteVars`, the decoded values, the
    errors the client raises, and the reply post-processing of `_post`. */
module Responses {
  import opened Wrappers

  /** The JSON attribute values the model distinguishes (floats and nested
      containers are outside the model). */
  datatype Json = JNull | JBool(b: bool) | JInt(i: int) | JStr(s: string)

  /** Python truthiness of an attribute value. */
  predicate Truthy(j: Json) {
    match j
    case JNull => false
    case JBool(b) => b
    case JInt(i) => i != 0
    case JStr(s) => |s| > 0
  }

  /** The `attributes` member of a reply entry: missing, `null`, or an
      object. */
  datatype Attributes = NoAttributes | NullAttributes | AttributeObject(fields: map<string, Json>)

  /** One entry of a reply: its `name`, its `value` text (`None` when the
      entry has no `value` member) and its `attributes`. */
  datatype ResponseEntry = ResponseEntry(
    name: string,
    value: Option<string>,
    attributes: Attributes)

  /** A converted value: an integer, a float (kept as the device's text,
      since float parsing and rounding are outside the model), or a string,
      which is also the form of a human-readable enumeration name. */
  datatype Scalar = IntValue(i: int) | FloatValue(text: string) | StrValue(s: string)

  /** One decoded `Value`: the converted value and the cleaned attributes. */
  datatype Value = Value(value: Scalar, attributes: map<string, Json>)

  /** The exceptions the modelled code raises. */
  datatype ApiError =
    | MissingEntry                            // IndexError: the reply is shorter than the plan
    | MissingValue(entry: ResponseEntry)      // KeyError: the entry has no `value`
    | NotAnInteger(entry: ResponseEntry)      // ValueError from `int(value)`
    | NotAFloat(entry: ResponseEntry)         // ValueError from `float(value)`
    | AttributesNotObject(entry: ResponseEntry) // AttributeError: `attributes` is `null`
    | NotHumanReadable(entry: ResponseEntry)  // APIError naming the entry
    | DeviceError(message: string)            // APIError carrying `developerMessage`
    | InvalidOperatingMode                    // APIError "Invalid operating mode!"
    | IndexOutOfRange                         // IndexError in a getter
    | MissingKey(key: string)                 // KeyError on a decoded result
    | BadPositionFields                       // TypeError from `Position(**fields)`

  const HumanReadableMessage: string := "Can't convert value to human readable value! "
  const InvalidOperatingModeMessage: string := "Invalid operating mode!"

  /** The decoded JSON body of a reply: a list of entries, an error object
      carrying `developerMessage`, or a single entry object. */
  datatype Reply =
    | EntryList(entries: seq<ResponseEntry>)
    | ErrorObject(developerMessage: string)
    | EntryObject(entry: ResponseEntry)

  /** The tail of `_post`: an error object raises, a single object is
      wrapped in a one-element list, a list passes through. */
  function NormalizeReply(reply: Reply): (r: Result<seq<ResponseEntry>, ApiError>)
    ensures r.Err? <==> reply.ErrorObject?
    ensures r.Err? ==> r.error == DeviceError(reply.developerMessage)
    ensures reply.EntryObject? ==> r == Ok([reply.entry])
    ensures reply.EntryList? ==> r == Ok(reply.entries)
  {
    match reply
    case ErrorObject(msg) => Err(DeviceError(msg))
    case EntryObject(e) => Ok([e])
    case EntryList(es) => Ok(es)
  }

  /** A single-object reply and the one-element list holding the same
      object are indistinguishable after normalisation. */
  lemma NormalizeSingle(e: ResponseEntry)
    ensures NormalizeReply(EntryObject(e)) == NormalizeReply(EntryList([e]))
    ensures |NormalizeReply(EntryObject(e)).value| == 1
  {
  }
}
