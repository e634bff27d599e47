/** The handle annotation: base64 around JSON around base64
    (internal/controller/ephemeralcredential_controller.go). */
module HandleCodec {
  import opened Api
  import Base64
  import Utf8
  import Json

  /** A provider name, which is Unicode text, and bytes that only the provider reads. */
  datatype CredentialHandle = CredentialHandle(providerName: string, material: Base64.Bytes)

  function EncodeHandle(h: CredentialHandle): string {
    var stored := Json.Stored(h.providerName, Base64.Encode(h.material));
    Base64.Encode(Utf8.Encode(Json.Marshal(stored)))
  }

  function DecodeHandle(raw: string): Option<CredentialHandle> {
    if raw == "" then None
    else
      var bytes := Base64.Decode(raw);
      if bytes.None? then None
      else
        var stored := Json.Unmarshal(Utf8.Decode(bytes.value));
        if stored.None? then None
        else
          var material := Base64.Decode(stored.value.material);
          if material.None? then None
          else Some(CredentialHandle(stored.value.providerName, material.value))
  }

  lemma NotEmpty(stored: Json.Stored)
    ensures Base64.Encode(Utf8.Encode(Json.Marshal(stored))) != ""
  {
    Utf8.RoundTrip(Json.Marshal(stored));
    Base64.RoundTrip(Utf8.Encode(Json.Marshal(stored)));
  }

  /** The outer two layers undo each other. */
  lemma TextRoundTrip(text: string)
    ensures Base64.Decode(Base64.Encode(Utf8.Encode(text))).Some?
    ensures Utf8.Decode(Base64.Decode(Base64.Encode(Utf8.Encode(text))).value) == text
  {
    Base64.RoundTrip(Utf8.Encode(text));
    Utf8.RoundTrip(text);
  }

  /** Every handle survives being stored, and a stored handle is never mistaken for no
      handle. */
  lemma HandleRoundTrip(h: CredentialHandle)
    ensures EncodeHandle(h) != ""
    ensures DecodeHandle(EncodeHandle(h)) == Some(h)
  {
    var stored := Json.Stored(h.providerName, Base64.Encode(h.material));
    NotEmpty(stored);
    TextRoundTrip(Json.Marshal(stored));
    Json.RoundTrip(stored);
    Base64.RoundTrip(h.material);
    DecodesBy(EncodeHandle(h), stored, h.material);
  }

  lemma DecodesBy(raw: string, stored: Json.Stored, material: Base64.Bytes)
    requires raw != "" && Base64.Decode(raw).Some?
    requires Json.Unmarshal(Utf8.Decode(Base64.Decode(raw).value)) == Some(stored)
    requires Base64.Decode(stored.material) == Some(material)
    ensures DecodeHandle(raw) == Some(CredentialHandle(stored.providerName, material))
  {
  }

  /** Exactly when a text holds a handle, and which one: it is not empty, it is base64 of
      the JSON text of an object, and that names the provider and holds base64 of the
      provider's bytes. */
  lemma DecodesExactly(raw: string, h: CredentialHandle)
    ensures DecodeHandle(raw) == Some(h) <==>
      && raw != ""
      && exists bytes, stored ::
           && Base64.Decode(raw) == Some(bytes)
           && Json.Unmarshal(Utf8.Decode(bytes)) == Some(stored)
           && stored.providerName == h.providerName
           && Base64.Decode(stored.material) == Some(h.material)
  {
    if DecodeHandle(raw) == Some(h) {
      var bytes := Base64.Decode(raw).value;
      assert Json.Unmarshal(Utf8.Decode(bytes)).Some?;
    }
  }

  ghost predicate IsBase64(text: string) {
    exists pad: nat :: Base64.WellFormed(Base64.SkipBreaks(text), pad)
  }

  ghost predicate IsObject(text: string) {
    exists i: nat, j: nat :: Json.Enclosed(text, i, j)
  }

  lemma OnlyBase64(text: string)
    ensures Base64.Decode(text).Some? <==> IsBase64(text)
  {
    Base64.DecodesExactly(Base64.SkipBreaks(text));
  }

  lemma OnlyObjects(text: string)
    ensures Json.Unmarshal(text).Some? ==> IsObject(text)
  {
    Json.ReadsOnlyObjects(text);
  }

  /** A missing annotation is no handle, and nor is a text that is not base64, or not of a
      JSON object, or whose opaque member is not base64. */
  lemma NoHandleIn(raw: string)
    ensures raw == "" || !IsBase64(raw) ==> DecodeHandle(raw) == None
    ensures Base64.Decode(raw).Some? ==>
      var text := Utf8.Decode(Base64.Decode(raw).value);
      && (!IsObject(text) ==> DecodeHandle(raw) == None)
      && (Json.Unmarshal(text).Some? && !IsBase64(Json.Unmarshal(text).value.material) ==> DecodeHandle(raw) == None)
  {
    OnlyBase64(raw);
    if DecodeHandle(raw).Some? {
      DecodesExactly(raw, DecodeHandle(raw).value);
      var text := Utf8.Decode(Base64.Decode(raw).value);
      OnlyObjects(text);
      OnlyBase64(Json.Unmarshal(text).value.material);
    }
  }

  /** Different handles are stored differently, so a Revoke call is made with the
      handle that the mint returned. */
  lemma HandlesStayApart(h: CredentialHandle, h': CredentialHandle)
    ensures EncodeHandle(h) == EncodeHandle(h') ==> h == h'
  {
    HandleRoundTrip(h);
    HandleRoundTrip(h');
  }

  // ---------------------------------------------------------------- the annotation

  /** How handles are kept in the annotation, and the bytes by which a provider knows a
      credential. */
  datatype Codec = Codec(
    encode: CredentialHandle -> string,
    decode: string -> Option<CredentialHandle>,
    material: Token -> Base64.Bytes
  ) {
    ghost predicate Faithful() {
      decode("") == None && forall h :: encode(h) != "" && decode(encode(h)) == Some(h)
    }

    /** The handle of a credential on record. */
    function Full(h: Handle): CredentialHandle {
      CredentialHandle(h.provider, material(h.token))
    }

    /** The annotation for what is on record; none is the same as an empty one. */
    function Annotation(handle: Option<Handle>): string {
      if handle.None? then "" else encode(Full(handle.value))
    }

    /** What the annotation is read as is what is on record: the previous credential is
        seen exactly if there is one, and by the provider that minted it. */
    lemma AnnotationIsRead(handle: Option<Handle>)
      requires Faithful()
      ensures decode(Annotation(handle)) == if handle.None? then None else Some(Full(handle.value))
    {
    }
  }

  /** The controller's own codec. */
  function Standard(material: Token -> Base64.Bytes): Codec {
    Codec(EncodeHandle, DecodeHandle, material)
  }

  lemma StandardIsFaithful(material: Token -> Base64.Bytes)
    ensures Standard(material).Faithful()
  {
    NoHandleIn("");
    forall h: CredentialHandle ensures EncodeHandle(h) != "" && DecodeHandle(EncodeHandle(h)) == Some(h) {
      HandleRoundTrip(h);
    }
  }
}
