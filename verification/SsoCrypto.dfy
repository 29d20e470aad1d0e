/** The framing of sealed messages to and from the identity provider. */
module SsoCrypto {
  import opened Wrappers
  import opened Octets
  import Utf8
  import Base64

  const IV_LENGTH := 16
  const TAG_LENGTH := 16

  /** AES-GCM under one key: `None` where it refuses its input. */
  datatype Cipher = Cipher(seal: (Bytes, Bytes) -> Option<Bytes>, open: (Bytes, Bytes) -> Option<Bytes>)

  /** What is assumed of it: opening inverts sealing and nothing else opens, and it takes every 16-octet IV. */
  ghost predicate Authenticated(c: Cipher) {
    && (forall iv, p, t :: c.seal(iv, p) == Some(t) <==> c.open(iv, t) == Some(p))
    && (forall iv, p :: c.seal(iv, p).Some? ==> |c.seal(iv, p).value| == |p| + TAG_LENGTH)
    && (forall iv, p :: |iv| == IV_LENGTH ==> c.seal(iv, p).Some?)
  }

  datatype Failure = Malformed(why: string) | Unauthorized

  /** The IV to use: the caller's, or `random` when the caller gives none. */
  function ChooseIv(ivB64: string, random: Bytes): Result<Bytes, string> {
    if ivB64 == "" then Ok(random) else Base64.Decode(ivB64)
  }

  /** `encrypt`: the sealed text with its IV in front, and the IV, both in base64url. */
  function Encrypt(c: Cipher, plaintext: string, ivB64: string, random: Bytes): Result<(string, string), Failure> {
    match ChooseIv(ivB64, random)
    case Err(why) => Err(Malformed(why))
    case Ok(iv) =>
      match c.seal(iv, Utf8.Encode(plaintext))
      case None => Err(Malformed("nonce"))
      case Some(sealed) => Ok((Base64.Encode(iv + sealed), Base64.Encode(iv)))
  }

  function AfterIv(body: Bytes): Bytes {
    if |body| <= IV_LENGTH then [] else body[IV_LENGTH..]
  }

  function OpenBody(c: Cipher, iv: Bytes, body: Bytes): Result<string, Failure> {
    match c.open(iv, AfterIv(body))
    case None => Err(Unauthorized)
    case Some(p) =>
      match Utf8.Decode(p)
      case None => Err(Unauthorized)
      case Some(text) => Ok(text)
  }

  /** `decrypt`: the IV comes from the second argument, not from the front of the body. */
  function Decrypt(c: Cipher, encB64: string, ivB64: string): Result<string, Failure> {
    match (Base64.Decode(ivB64), Base64.Decode(encB64))
    case (Ok(iv), Ok(body)) => OpenBody(c, iv, body)
    case _ => Err(Unauthorized)
  }

  // ------------------------------------------------ what comes back

  lemma OpenBodyExactly(c: Cipher, iv: Bytes, body: Bytes, text: string)
    requires Authenticated(c)
    ensures OpenBody(c, iv, body) == Ok(text) <==> c.seal(iv, Utf8.Encode(text)) == Some(AfterIv(body))
  {
    Utf8.DecodeEncode(text);
    match c.open(iv, AfterIv(body))
    case None =>
    case Some(p) =>
      if Utf8.Decode(p).Some? {
        Utf8.EncodeDecode(p);
      }
  }

  /**
   * A message decrypts to a text exactly when what follows its first 16 octets is that text sealed under the given
   * IV.
   */
  lemma DecryptExactly(c: Cipher, encB64: string, ivB64: string, text: string)
    requires Authenticated(c)
    ensures Decrypt(c, encB64, ivB64) == Ok(text) <==>
            && Base64.Decode(ivB64).Ok? && Base64.Decode(encB64).Ok?
            && c.seal(Base64.Decode(ivB64).value, Utf8.Encode(text)) == Some(AfterIv(Base64.Decode(encB64).value))
  {
    if Base64.Decode(ivB64).Ok? && Base64.Decode(encB64).Ok? {
      OpenBodyExactly(c, Base64.Decode(ivB64).value, Base64.Decode(encB64).value, text);
    }
  }

  /** `decrypt` gives back what `encrypt` was given exactly when the IV has 16 octets. */
  lemma RoundTripExactly(c: Cipher, text: string, ivB64: string, random: Bytes)
    requires Authenticated(c) && Encrypt(c, text, ivB64, random).Ok?
    ensures var (enc, iv) := Encrypt(c, text, ivB64, random).value;
            Decrypt(c, enc, iv) == Ok(text) <==> |ChooseIv(ivB64, random).value| == 16
  {
    var iv := ChooseIv(ivB64, random).value;
    var sealed := c.seal(iv, Utf8.Encode(text)).value;
    Base64.DecodeEncode(iv);
    Base64.DecodeEncode(iv + sealed);
    OpenBodyExactly(c, iv, iv + sealed, text);
    if |iv| == IV_LENGTH {
      assert (iv + sealed)[IV_LENGTH..] == sealed;
    }
  }

  /** On the wire the IV comes first, as many octets as it has, then the sealed text; the IV is sent along too. */
  lemma WireForm(c: Cipher, text: string, ivB64: string, random: Bytes)
    requires Encrypt(c, text, ivB64, random).Ok?
    ensures var (enc, ivOut) := Encrypt(c, text, ivB64, random).value; var iv := ChooseIv(ivB64, random).value;
            && Base64.Decode(ivOut) == Ok(iv)
            && c.seal(iv, Utf8.Encode(text)).Some?
            && Base64.Decode(enc) == Ok(iv + c.seal(iv, Utf8.Encode(text)).value)
  {
    var iv := ChooseIv(ivB64, random).value;
    Base64.DecodeEncode(iv);
    Base64.DecodeEncode(iv + c.seal(iv, Utf8.Encode(text)).value);
  }

  /** Every text makes the trip, under the random IV and under any 16-octet one the caller names. */
  lemma RoundTrip(c: Cipher, text: string, given: Option<Bytes>, random: Bytes)
    requires Authenticated(c) && |random| == 16 && (given.Some? ==> |given.value| == 16)
    ensures var r := Encrypt(c, text, if given.Some? then Base64.Encode(given.value) else "", random);
            r.Ok? && Decrypt(c, r.value.0, r.value.1) == Ok(text)
  {
    var ivB64 := if given.Some? then Base64.Encode(given.value) else "";
    if given.Some? {
      Base64.DecodeEncode(given.value);
    }
    RoundTripExactly(c, text, ivB64, random);
  }
}
