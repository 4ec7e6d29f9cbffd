/**
 * The parts of the .NET base library the transport relies on. The parsers, the URI check and
 * the JSON text layer are stand-ins (fields of `Library`); character classification and
 * lower-casing are written out.
 */
module Platform {
  import opened Wrappers
  import Envelope

  /**
   * The library calls the model does not define:
   * `Uri.IsWellFormedUriString(s, UriKind.Absolute)`, the ISO-8601 round-trip date parser
   * (UTC ticks), `TimeSpan.Parse` (ticks), `long.Parse`, and Newtonsoft's JSON writer and
   * reader. A parser's `None` stands for the exception it throws.
   */
  datatype Library = Library(
    isWellFormedAbsoluteUri: string -> bool,
    parseInstant: string -> Option<int>,
    parseTimeSpan: string -> Option<int>,
    parseInt64: string -> Option<int>,
    writeJson: Envelope.Json -> string,
    readJson: string -> Option<Envelope.Json>)

  /** The JSON reader reads back whatever the writer wrote. */
  ghost predicate JsonTextRoundTrips(lib: Library)
  {
    forall j :: lib.readJson(lib.writeJson(j)) == Some(j)
  }

  predicate IsAsciiLetter(c: char)
  {
    'a' <= c <= 'z' || 'A' <= c <= 'Z'
  }

  /**
   * What every absolute URI has, so what the URI check only accepts: a scheme, which begins
   * with a letter and is ended by a ':'.
   */
  ghost predicate AbsoluteUrisHaveSchemes(lib: Library)
  {
    forall s :: lib.isWellFormedAbsoluteUri(s) ==> s != [] && IsAsciiLetter(s[0]) && ':' in s
  }

  /** `Char.IsWhiteSpace`: the Unicode space separators plus the line and paragraph separators and the controls U+0009-U+000D and U+0085. */
  predicate IsWhiteSpace(c: char)
  {
    || '\U{9}' <= c <= '\U{D}'
    || c == ' ' || c == '\U{85}' || c == '\U{A0}' || c == '\U{1680}'
    || '\U{2000}' <= c <= '\U{200A}'
    || c == '\U{2028}' || c == '\U{2029}' || c == '\U{202F}' || c == '\U{205F}' || c == '\U{3000}'
  }

  /** `string.IsNullOrWhiteSpace` of a non-null string: every character is white space (so also the empty string). */
  predicate IsEmptyOrWhiteSpace(s: string)
  {
    forall i :: 0 <= i < |s| ==> IsWhiteSpace(s[i])
  }

  function ToLowerInvariantChar(c: char): (d: char)
    ensures 'A' <= c <= 'Z' ==> 'a' <= d <= 'z'
    ensures !('A' <= c <= 'Z') ==> d == c
  {
    if 'A' <= c <= 'Z' then (c as int + 32) as char else c
  }

  /** `string.ToLowerInvariant`, for the ASCII letters. */
  function ToLowerInvariant(s: string): (t: string)
    ensures |t| == |s|
    ensures forall i :: 0 <= i < |s| ==> t[i] == ToLowerInvariantChar(s[i])
  {
    if s == [] then [] else [ToLowerInvariantChar(s[0])] + ToLowerInvariant(s[1..])
  }

  /** Lower-casing twice changes nothing more than lower-casing once. */
  lemma ToLowerInvariantIdempotent(s: string)
    ensures ToLowerInvariant(ToLowerInvariant(s)) == ToLowerInvariant(s)
  {
    var t := ToLowerInvariant(s);
    assert forall i :: 0 <= i < |t| ==> ToLowerInvariantChar(t[i]) == t[i];
  }

  /** `AmazonSQSTransportMessageSerializer.Serialize`: the envelope laid out as JSON and written as text. */
  function Serialize(lib: Library, m: Envelope.SqsTransportMessage): string
  {
    lib.writeJson(Envelope.ToJson(m))
  }

  /**
   * `AmazonSQSTransportMessageSerializer.Deserialize` of a message body: `None` when the text is
   * not JSON, is the JSON null, or does not fit the envelope.
   */
  function Deserialize(lib: Library, text: string): Option<Envelope.SqsTransportMessage>
  {
    match lib.readJson(text)
    case None => None
    case Some(j) => Envelope.FromJson(j)
  }

  /** With a JSON reader that reads back what the writer wrote, an envelope survives serialisation unchanged. */
  lemma DeserializeSerialize(lib: Library, m: Envelope.SqsTransportMessage)
    requires JsonTextRoundTrips(lib)
    ensures Deserialize(lib, Serialize(lib, m)) == Some(m)
  {
    Envelope.FromJsonToJson(m);
    assert lib.readJson(lib.writeJson(Envelope.ToJson(m))) == Some(Envelope.ToJson(m));
  }
}
