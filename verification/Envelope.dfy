/**
The self-describing envelope of the KMS-backed store: the data is sealed with a fresh key, that key
is wrapped by a key management service, and both are laid out behind a magic and a 16-bit length.
*/
module Envelope {
  import opened Wrappers
  import opened Bytes

  type Blob = seq<Byte>

  /** "spkms1" */
  const MAGIC: Blob := [0x73, 0x70, 0x6b, 0x6d, 0x73, 0x31]
  const LEN_FIELD: nat := 2
  const MAX_DEK_LEN: nat := 65535
  const DEK_BYTES: nat := 32

  datatype Error =
    | NotConfigured
    | NoRandomness
    | SealFailed
    | WrapFailed
    | EmptyDek
    | DekTooLong
    | TooShort
    | BadMagic
    | LengthOutOfRange
    | UnwrapFailed
    | OpenFailed

  /** The key management service; it may turn out not to be configured behind its interface. */
  datatype Client =
    | Unconfigured
    | Client(wrap: Blob -> Result<Blob, Error>, unwrap: Blob -> Result<Blob, Error>)

  /** The authenticated cipher, with its nonce as a parameter. */
  datatype Cipher = Cipher(seal: (Blob, Blob, Blob) -> Option<Blob>, open: (Blob, Blob) -> Option<Blob>)

  /** The big-endian 16-bit field; the conversion to 16 bits wraps. */
  function Uint16(n: nat): (field: Blob)
    ensures |field| == LEN_FIELD
  {
    [(n / 256) % 256, n % 256]
  }

  function Assemble(dekCt: Blob, body: Blob): Blob { MAGIC + Uint16(|dekCt|) + dekCt + body }

  function ParseEnvelope(data: Blob): Result<(Blob, Blob), Error> {
    if |data| < |MAGIC| + LEN_FIELD then Err(TooShort)
    else if data[..|MAGIC|] != MAGIC then Err(BadMagic)
    else
      var dekLen: nat := data[|MAGIC|] as int * 256 + data[|MAGIC| + 1];
      var segStart := |MAGIC| + LEN_FIELD;
      var segEnd := segStart + dekLen;
      if segEnd > |data| then Err(LengthOutOfRange) else Ok((data[segStart..segEnd], data[segEnd..]))
  }

  lemma AssembledParts(dekCt: Blob, body: Blob)
    ensures var data := Assemble(dekCt, body); var start := |MAGIC| + LEN_FIELD;
      && |data| == start + |dekCt| + |body|
      && data[..|MAGIC|] == MAGIC
      && data[|MAGIC|] as int * 256 + data[|MAGIC| + 1] == |dekCt| % 65536
      && data[start..start + |dekCt|] == dekCt && data[start + |dekCt|..] == body
  {
    LengthField(|dekCt|);
    var head := MAGIC + [|dekCt| / 256 % 256, |dekCt| % 256];
    assert Assemble(dekCt, body) == head + (dekCt + body);
  }

  lemma LengthField(n: nat)
    ensures n / 256 % 256 * 256 + n % 256 == n % 65536
  {
  }

  /** Parsing inverts assembly exactly when the wrapped key fits the length field. */
  lemma ParseInvertsAssembleIff(dekCt: Blob, body: Blob)
    ensures ParseEnvelope(Assemble(dekCt, body)) == Ok((dekCt, body)) <==> |dekCt| <= MAX_DEK_LEN
  {
    AssembledParts(dekCt, body);
    if |dekCt| > MAX_DEK_LEN && ParseEnvelope(Assemble(dekCt, body)).Ok? {
      assert |ParseEnvelope(Assemble(dekCt, body)).value.0| == |dekCt| % 65536;
    }
  }

  /** Whatever is accepted is an assembled envelope, byte for byte. */
  lemma AcceptedReassembles(data: Blob)
    requires ParseEnvelope(data).Ok?
    ensures var parts := ParseEnvelope(data).value;
      |parts.0| <= MAX_DEK_LEN && Assemble(parts.0, parts.1) == data
  {
    var parts := ParseEnvelope(data).value;
    var a, b := data[|MAGIC|], data[|MAGIC| + 1];
    var n: nat := a as int * 256 + b;
    assert |parts.0| == n && n / 256 == a && n % 256 == b;
    assert Uint16(n) == [a, b];
    assert data == data[..|MAGIC|] + [a, b] + data[|MAGIC| + LEN_FIELD..];
    assert data[|MAGIC| + LEN_FIELD..] == parts.0 + parts.1;
  }

  /** A truncated envelope is rejected exactly when the cut falls before the end of the wrapped key;
      a later cut is left to the cipher and shortens the body only. */
  lemma TruncationIsRejectedIff(dekCt: Blob, body: Blob, cut: nat)
    requires |dekCt| <= MAX_DEK_LEN && cut <= |Assemble(dekCt, body)|
    ensures var end := |MAGIC| + LEN_FIELD + |dekCt|; var r := ParseEnvelope(Assemble(dekCt, body)[..cut]);
      && (r.Err? <==> cut < end)
      && (r.Err? ==> r.error == if cut < |MAGIC| + LEN_FIELD then TooShort else LengthOutOfRange)
      && (r.Ok? ==> cut - end <= |body| && r.value == (dekCt, body[..cut - end]))
  {
    AssembledParts(dekCt, body);
    var data := Assemble(dekCt, body);
    var end := |MAGIC| + LEN_FIELD + |dekCt|;
    if |MAGIC| + LEN_FIELD <= cut {
      assert data[..cut][..|MAGIC|] == data[..|MAGIC|];
      if end <= cut {
        assert data[..cut][|MAGIC| + LEN_FIELD..end] == data[|MAGIC| + LEN_FIELD..end] == dekCt;
        assert data[..cut][end..] == data[end..][..cut - end];
      }
    }
  }

  /** Two envelopes are equal only if both of their parts are. */
  lemma AssembleIsInjective(d0: Blob, b0: Blob, d1: Blob, b1: Blob)
    requires |d0| <= MAX_DEK_LEN && |d1| <= MAX_DEK_LEN && Assemble(d0, b0) == Assemble(d1, b1)
    ensures d0 == d1 && b0 == b1
  {
    ParseInvertsAssembleIff(d0, b0);
    ParseInvertsAssembleIff(d1, b1);
  }

  /** Unwrapping undoes wrapping and opening undoes sealing. */
  ghost predicate Inverse(client: Client, cipher: Cipher) {
    && (client.Client? ==>
          forall dek :: client.wrap(dek).Ok? ==> client.unwrap(client.wrap(dek).value) == Ok(dek))
    && forall dek, nonce, pt ::
          cipher.seal(dek, nonce, pt).Some? ==> cipher.open(dek, cipher.seal(dek, nonce, pt).value) == Some(pt)
  }

  class KmsStorer {
    const client: Client
    const cipher: Cipher

    constructor (client: Client, cipher: Cipher)
      ensures this.client == client && this.cipher == cipher
    {
      this.client, this.cipher := client, cipher;
    }

    predicate Configured() { client.Client? }

    /** The first of the causes for which encrypting fails, if there is one. */
    function EncryptError(plaintext: Blob, random: Blob, nonce: Blob): Option<Error> {
      if !Configured() then Some(NotConfigured)
      else if |random| < DEK_BYTES then Some(NoRandomness)
      else if cipher.seal(random[..DEK_BYTES], nonce, plaintext).None? then Some(SealFailed)
      else
        match client.wrap(random[..DEK_BYTES])
        case Err(e) => Some(if e == NotConfigured then NotConfigured else WrapFailed)
        case Ok(dekCt) =>
          if dekCt == [] then Some(EmptyDek) else if MAX_DEK_LEN < |dekCt| then Some(DekTooLong) else None
    }

    /** `random` is what the system's randomness yields: the data key, then the nonce. */
    method Encrypt(plaintext: Blob, random: Blob, nonce: Blob) returns (r: Result<Blob, Error>)
      ensures r.Err? ==> Some(r.error) == EncryptError(plaintext, random, nonce)
      ensures r.Ok? ==> EncryptError(plaintext, random, nonce) == None && |random| >= DEK_BYTES
      ensures r.Ok? ==>
                var dek := random[..DEK_BYTES];
                exists body, dekCt ::
                  && cipher.seal(dek, nonce, plaintext) == Some(body) && client.wrap(dek) == Ok(dekCt)
                  && 0 < |dekCt| <= MAX_DEK_LEN && r.value == Assemble(dekCt, body)
      ensures r.Ok? && Inverse(client, cipher) ==> Decrypt(r.value) == Ok(plaintext)
    {
      if !Configured() { return Err(NotConfigured); }
      if |random| < DEK_BYTES { return Err(NoRandomness); }
      var dek := random[..DEK_BYTES];
      var body := cipher.seal(dek, nonce, plaintext);
      if body.None? { return Err(SealFailed); }
      var wrapped := client.wrap(dek);
      if wrapped.Err? { return Err(if wrapped.error == NotConfigured then NotConfigured else WrapFailed); }
      var dekCt := wrapped.value;
      if |dekCt| == 0 { return Err(EmptyDek); }
      if |dekCt| > MAX_DEK_LEN { return Err(DekTooLong); }
      var out := MAGIC;
      out := out + Uint16(|dekCt|);
      out := out + dekCt;
      out := out + body.value;
      assert out == Assemble(dekCt, body.value);
      ParseInvertsAssembleIff(dekCt, body.value);
      return Ok(out);
    }

    function Decrypt(ciphertext: Blob): (r: Result<Blob, Error>)
      ensures !Configured() ==> r == Err(NotConfigured)
    {
      if !Configured() then Err(NotConfigured)
      else
        match ParseEnvelope(ciphertext)
        case Err(e) => Err(e)
        case Ok(parts) =>
          match client.unwrap(parts.0)
          case Err(e) => Err(if e == NotConfigured then NotConfigured else UnwrapFailed)
          case Ok(dek) =>
            match cipher.open(dek, parts.1)
            case None => Err(OpenFailed)
            case Some(pt) => Ok(pt)
    }
  }

  /** Every storable plaintext has an envelope that decrypts to it, and whatever decrypts is one. */
  lemma DecryptOfEncrypted(storer: KmsStorer, plaintext: Blob, dek: Blob, nonce: Blob, body: Blob, dekCt: Blob)
    requires Inverse(storer.client, storer.cipher) && storer.Configured()
    requires storer.cipher.seal(dek, nonce, plaintext) == Some(body) && storer.client.wrap(dek) == Ok(dekCt)
    requires |dekCt| <= MAX_DEK_LEN
    ensures storer.Decrypt(Assemble(dekCt, body)) == Ok(plaintext)
  {
    ParseInvertsAssembleIff(dekCt, body);
  }

  lemma DecryptedWasAssembled(storer: KmsStorer, ciphertext: Blob)
    requires storer.Decrypt(ciphertext).Ok?
    ensures exists dekCt, body :: |dekCt| <= MAX_DEK_LEN && ciphertext == Assemble(dekCt, body) &&
              storer.client.unwrap(dekCt).Ok? &&
              storer.cipher.open(storer.client.unwrap(dekCt).value, body) == Some(storer.Decrypt(ciphertext).value)
  {
    AcceptedReassembles(ciphertext);
    var parts := ParseEnvelope(ciphertext).value;
    assert ciphertext == Assemble(parts.0, parts.1);
  }
}
