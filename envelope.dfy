/**
 * `AmazonSqsTransportMessage`, the envelope the transport writes as the SQS message body:
 * the Rebus headers and the base64 text of the body bytes, as a JSON object with the
 * properties `headers` and `body`. Its properties have public setters, so a deserialised
 * envelope can hold null in either; `None` stands for null.
 */
module Envelope {
  import opened Wrappers
  import opened Messages

  datatype SqsTransportMessage = SqsTransportMessage(headers: Option<Headers>, body: Option<string>)

  /** The constructor taking headers and body: a null argument becomes an empty value, any other is kept as given. */
  function Create(headers: Option<Headers>, body: Option<string>): (m: SqsTransportMessage)
    ensures m.headers.Some? && m.body.Some?
    ensures headers.Some? ==> m.headers == headers
    ensures body.Some? ==> m.body == body
    ensures headers.None? ==> m.headers == Some(map[])
    ensures body.None? ==> m.body == Some("")
  {
    SqsTransportMessage(Some(headers.GetOr(map[])), Some(body.GetOr("")))
  }

  /** The parameterless constructor, which chains to `Create(null, null)`. */
  function CreateEmpty(): (m: SqsTransportMessage)
    ensures m.headers == Some(map[]) && m.body == Some("")
  {
    Create(None, None)
  }

  // The JSON property names given by the `[JsonProperty]` attributes.
  const HeadersProperty: string := "headers"
  const BodyProperty: string := "body"

  /**
   * A JSON value as far as the envelope needs one. `JOther` stands for every number,
   * boolean and array, none of which the envelope writes.
   */
  datatype Json = JNull | JString(text: string) | JObject(members: map<string, Json>) | JOther

  function StringToJson(s: Option<string>): Json
  {
    match s
    case None => JNull
    case Some(t) => JString(t)
  }

  function HeadersToJson(headers: Option<Headers>): Json
  {
    match headers
    case None => JNull
    case Some(h) => JObject(map k | k in h :: JString(h[k]))
  }

  /** How the serialiser lays out an envelope: an object with exactly the two named properties. */
  function ToJson(m: SqsTransportMessage): (j: Json)
    ensures j.JObject? && j.members.Keys == {HeadersProperty, BodyProperty}
    ensures j.members[HeadersProperty] == HeadersToJson(m.headers)
    ensures j.members[BodyProperty] == StringToJson(m.body)
  {
    JObject(map[HeadersProperty := HeadersToJson(m.headers), BodyProperty := StringToJson(m.body)])
  }

  /** A string property's value: `Some(None)` for null, `None` for a value of another kind. */
  function StringFromJson(j: Json): Option<Option<string>>
  {
    match j
    case JNull => Some(None)
    case JString(t) => Some(Some(t))
    case _ => None
  }

  /** A dictionary property's value: `Some(None)` for null, `None` for anything but an object of strings. */
  function HeadersFromJson(j: Json): Option<Option<Headers>>
  {
    match j
    case JNull => Some(None)
    case JObject(members) =>
      if forall k | k in members :: members[k].JString? then
        Some(Some(map k | k in members :: members[k].text))
      else
        None
    case _ => None
  }

  /**
   * How the deserialiser reads an envelope: it builds one with the parameterless constructor
   * and then assigns each property the object names. `None` when the text held null or a value
   * of the wrong kind.
   */
  function FromJson(j: Json): (r: Option<SqsTransportMessage>)
    ensures r.Some? ==> j.JObject?
    ensures j.JObject? && HeadersProperty !in j.members && BodyProperty !in j.members ==> r == Some(CreateEmpty())
  {
    match j
    case JObject(members) =>
      var headers := if HeadersProperty in members then HeadersFromJson(members[HeadersProperty]) else Some(CreateEmpty().headers);
      var body := if BodyProperty in members then StringFromJson(members[BodyProperty]) else Some(CreateEmpty().body);
      if headers.Some? && body.Some? then Some(SqsTransportMessage(headers.value, body.value)) else None
    case _ => None
  }

  /** Reading back what was written gives the same envelope, null fields included. */
  lemma FromJsonToJson(m: SqsTransportMessage)
    ensures FromJson(ToJson(m)) == Some(m)
  {
    match m.headers
    case None =>
    case Some(h) =>
      var members := map k | k in h :: JString(h[k]);
      assert HeadersFromJson(JObject(members)) == Some(Some(h)) by {
        assert (map k | k in members :: members[k].text) == h;
      }
  }
}
