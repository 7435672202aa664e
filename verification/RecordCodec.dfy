/** How a stored object travels: JSON text, its UTF-8 bytes, and those in Base 64. */
module RecordCodec {
  import opened Options
  import opened Utf8
  import opened Utf8Char
  import opened Base64
  import opened RecordComments
  import J = Json

  function Encoded(h: J.Host, o: J.Object): string {
    Encode64(Encode(h.dumps(J.JObj(o))))
  }

  /** None stands for the exceptions a record is skipped for. */
  function Decoded(h: J.Host, payload: string): Option<J.Object> {
    match Decode64(payload)
    case None => None
    case Some(bytes) =>
      match DecodeStrict(bytes)
      case None => None
      case Some(raw) =>
        match h.loads(if raw == "" then "{}" else raw)
        case None => None
        case Some(v) => if v.JObj? then Some(v.fields) else None
  }

  /** Every object comes back from its encoding, which is a payload the record pattern accepts. */
  lemma CodecRoundTrip(h: J.Host, o: J.Object)
    requires h.Faithful()
    ensures Decoded(h, Encoded(h, o)) == Some(o)
    ensures Payload(Encoded(h, o))
  {
    var text := h.dumps(J.JObj(o));
    assert text != "" && h.loads(text) == Some(J.JObj(o));
    Base64RoundTrip(Encode(text));
    RoundTrip(text);
    EncodedIsPayload(Encode(text));
    EncodesToSome(text);
    hide Encode, Encode64, Decode64, DecodeStrict, PayloadChar;
    var p := Encoded(h, o);
    forall i | 0 <= i < |p| ensures PayloadChar(p[i]) {
      assert p[i] in p;
    }
  }

  lemma EncodesToSome(text: string)
    requires text != ""
    ensures Encode(text) != []
  {
    assert |Encode(text)| >= |EncodeChar(text[0])|;
  }
}
