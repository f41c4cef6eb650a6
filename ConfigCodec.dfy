/** `encrypt_config` and `decrypt_config`: a configuration is stored as the base64 text of the UTF-8
    octets of its JSON text. JSON itself is abstract: a pair of functions standing for `json.dumps`
    and `json.loads`, the latter None where it raises. */
module ConfigCodec {
  import opened Wrappers
  import opened Bytes
  import Base64
  import Utf8

  datatype JsonCodec<!C> = JsonCodec(dumps: C -> string, loads: string -> Option<C>)

  /** `json.loads(json.dumps(c)) == c`: the value survives serialisation. */
  predicate Serialisable<C(==)>(codec: JsonCodec<C>, c: C)
  {
    codec.loads(codec.dumps(c)) == Some(c)
  }

  /** `encrypt_config(data)`. */
  function EncryptConfig<C>(codec: JsonCodec<C>, data: C): string
  {
    Base64.Encode(Utf8.Encode(codec.dumps(data)))
  }

  /** `decrypt_config(s)`: None wherever any of the three decoding steps raises. */
  function DecryptConfig<C>(codec: JsonCodec<C>, s: string): Option<C>
  {
    match Base64.Decode(s)
    case None => None
    case Some(octets) =>
      match Utf8.Decode(octets)
      case None => None
      case Some(text) => codec.loads(text)
  }

  /** Encryption writes only ASCII text, so it can always be decoded as base64. */
  lemma EncryptConfigIsAscii<C>(codec: JsonCodec<C>, data: C)
    ensures IsAscii(EncryptConfig(codec, data))
  {
    Base64.EncodeIsAscii(Utf8.Encode(codec.dumps(data)));
  }

  /** Decrypting an encrypted configuration gives it back. */
  lemma DecryptEncrypt<C>(codec: JsonCodec<C>, data: C)
    requires Serialisable(codec, data)
    ensures DecryptConfig(codec, EncryptConfig(codec, data)) == Some(data)
  {
    var text := codec.dumps(data);
    Base64.DecodeEncode(Utf8.Encode(text));
    Utf8.DecodeEncode(text);
  }

  /** A non-empty JSON text is stored as non-empty text, which the loaders do not mistake for
      an absent entry. */
  lemma EncryptConfigNonEmpty<C>(codec: JsonCodec<C>, data: C)
    requires codec.dumps(data) != ""
    ensures EncryptConfig(codec, data) != ""
  {
    var text := codec.dumps(data);
    assert |Utf8.Encode(text)| >= 1 by {
      assert Utf8.Encode(text) == Utf8.EncodeChar(text[0]) + Utf8.Encode(text[1..]);
    }
  }

  /** Malformed stored text decrypts to None instead of raising: text that is not base64 (in
      particular any text with a non-ASCII character, and a run of alphabet characters whose length
      is not a multiple of four), and a base64 payload that is not UTF-8. */
  lemma DecryptMalformed<C>(codec: JsonCodec<C>, s: string)
    ensures Base64.Decode(s).None? ==> DecryptConfig(codec, s) == None
    ensures Base64.Decode(s).Some? && Utf8.Decode(Base64.Decode(s).value).None? ==> DecryptConfig(codec, s) == None
    ensures !IsAscii(s) ==> DecryptConfig(codec, s) == None
    ensures Base64.DataOnly(s) && |s| % 4 != 0 ==> DecryptConfig(codec, s) == None
  {
    Base64.DecodeRejects(s, s, 0);
  }

  /** Concretely: a lone base64 character, and the base64 text of the lone octet 80. */
  lemma DecryptExamples<C>(codec: JsonCodec<C>)
    ensures DecryptConfig(codec, "Q") == None
    ensures DecryptConfig(codec, "gA==") == None
  {
    Base64.DecodeExamples();
    var s := "gA==";
    assert Base64.SextetOf('g') == 32 && Base64.SextetOf('A') == 0;
    assert s[1..][1..] == "==";
    assert Base64.A2b(s, 0, 0, 0, []) == Base64.A2b(s[1..], 1, 32, 0, []);
    assert [] + [32 * 4 + 0 / 16] == [128];
    assert Base64.A2b(s[1..], 1, 32, 0, []) == Base64.A2b(s[1..][1..], 2, 0, 0, [128]);
    assert Base64.Decode(s) == Some([128]);
    Utf8.DecodeRejects(128, 0, 0, []);
    assert [128 as byte] + [] == [128];
  }
}
