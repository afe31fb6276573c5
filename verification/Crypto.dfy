/** internal/crypto: sealing and unsealing over symbolic age and SSH primitives.
    A ciphertext is the set of keys its body is wrapped to, the payload, and the randomness drawn
    for it; it opens for the identities of those keys and no others. A signature verifies under
    the key that made it, over the bytes it was made of, and nowhere else. */
module Crypto {
  import opened Wrappers
  import opened Text
  import opened Envelope
  import opened Framing

  datatype Ciphertext = Ciphertext(recipients: set<string>, payload: string, nonce: nat)

  /** The library calls left symbolic. Everything below holds for every lawful choice of them. */
  datatype Age = Age(
    validRecipient: string -> bool,             // age.ParseX25519Recipient succeeds
    recipientOf: string -> Option<string>,      // age.ParseX25519Identity, then Recipient().String()
    armor: Ciphertext -> string,                // base64 of the ciphertext bytes
    blob: string -> Option<Ciphertext>          // base64 decoding, then the age header
  ) {
    ghost predicate Lawful() {
      && (forall r :: validRecipient(r) ==> KeyOk(validRecipient, r))
      && (forall id :: recipientOf(id).Some? ==> validRecipient(recipientOf(id).value))
      && (forall c :: blob(armor(c)) == Some(c))
      && recipientOf("") == None
    }

    /** The identity is that of one of the ciphertext's recipients. */
    predicate Opens(identity: string, ct: Ciphertext) {
      recipientOf(identity).Some? && recipientOf(identity).value in ct.recipients
    }
  }

  /** The two ways an envelope names its project. */
  datatype Project = ById(id: int64) | ByKey(key: string)

  function WhoLine(p: Project): string
    requires p.ById? ==> p.id >= 0
  {
    match p
    case ById(id) => NumericLine(id)
    case ByKey(key) => KeyLine(key)
  }

  /** What SealMulti (ById) and SealMultiV4 (ByKey) demand before any crypto. */
  predicate Sealable(age: Age, p: Project, recipients: seq<string>, level: int64) {
    && (match p case ById(id) => id > 0 case ByKey(key) => age.validRecipient(key))
    && level > 0
    && recipients != []
    && forall i :: 0 <= i < |recipients| ==> age.validRecipient(recipients[i])
  }

  function Payload(p: Project, level: nat, name: string, plaintext: string): string
    requires p.ById? ==> p.id >= 0
  {
    EnvelopeOf(WhoLine(p), level, name, plaintext)
  }

  function Seal(age: Age, p: Project, plaintext: string, recipients: seq<string>, name: string,
                level: int64, nonce: nat): (r: Result<Ciphertext>)
    ensures r.Ok? <==> Sealable(age, p, recipients, level)
    ensures r.Ok? <==> && level > 0 && |recipients| > 0 && (forall x :: x in recipients ==> age.validRecipient(x))
                       && (p.ById? ==> p.id > 0) && (p.ByKey? ==> age.validRecipient(p.key))
    ensures r.Ok? ==> r.value.recipients == set x | x in recipients
  {
    if !Sealable(age, p, recipients, level) then Err
    else Ok(Ciphertext((set x | x in recipients), Payload(p, level, name, plaintext), nonce))
  }

  /** The payload, for an identity the ciphertext was sealed to; the age half of decryptEnvelope. */
  function Decrypt(age: Age, ct: Ciphertext, identity: string): Result<string> {
    if age.Opens(identity, ct) then Ok(ct.payload) else Err
  }

  function OpenPayload(age: Age, payload: string, want: Project): (r: Result<(string, int)>)
    ensures r.Ok? ==> DEFAULT_LEVEL <= r.value.1 <= INT64_MAX
  {
    match want
    case ById(id) => Open(payload, id)
    case ByKey(key) => OpenByKey(age.validRecipient, payload, key)
  }

  /** What UnsealVerified (ById) and UnsealVerifiedByKey (ByKey) return: plaintext and level. */
  function Unseal(age: Age, ct: Ciphertext, identity: string, want: Project): (r: Result<(string, int)>)
    ensures r.Ok? ==> DEFAULT_LEVEL <= r.value.1 <= INT64_MAX
  {
    match Decrypt(age, ct, identity)
    case Err => Err
    case Ok(payload) => OpenPayload(age, payload, want)
  }

  function EmbeddedProjectID(age: Age, ct: Ciphertext, identity: string): (r: Result<int>)
    ensures r.Ok? ==> 0 < r.value <= INT64_MAX
  {
    match Decrypt(age, ct, identity)
    case Err => Err
    case Ok(payload) => EmbeddedID(payload)
  }

  // ---------------------------------------------------------------- the identity buffer

  method Zeroize(b: array<char>)
    modifies b
    ensures forall i :: 0 <= i < b.Length ==> b[i] == '\0'
  {
    for i := 0 to b.Length
      invariant forall j :: 0 <= j < i ==> b[j] == '\0'
    {
      b[i] := '\0';
    }
  }

  /** UnsealVerified and UnsealVerifiedByKey: the caller's identity buffer is wiped on every path. */
  method UnsealVerified(age: Age, ct: Ciphertext, identity: array<char>, want: Project)
    returns (r: Result<(string, int)>)
    modifies identity
    ensures r == Unseal(age, ct, old(identity[..]), want)
    ensures forall i :: 0 <= i < identity.Length ==> identity[i] == '\0'
  {
    var payload := Decrypt(age, ct, identity[..]);
    if payload.Err? {
      Zeroize(identity);
      return Err;
    }
    var split := Split(payload.value);
    if split.None? {
      Zeroize(identity);
      return Err;
    }
    var (header, body) := split.value;
    match want {
      case ById(id) =>
        var got := ParseHeadersLoop(header);
        r := if got.Err? || got.value.0 <= 0 || got.value.0 != id then Err else Ok((body, got.value.1));
      case ByKey(key) =>
        var got := ParseHeadersV4Loop(age.validRecipient, header);
        r := if got.Err? || got.value.0 == "" || got.value.0 != key then Err else Ok((body, got.value.1));
    }
    Zeroize(identity);
  }

  // ---------------------------------------------------------------- what sealing promises

  /** The payload Seal writes opens, for its own project, to exactly what went in, iff the level is
      a readable one and the name carries no blank line. */
  lemma PayloadRoundTrip(age: Age, p: Project, level: nat, name: string, plaintext: string)
    requires age.Lawful() && level <= INT64_MAX
    requires match p case ById(id) => id > 0 case ByKey(key) => age.validRecipient(key)
    ensures OpenPayload(age, Payload(p, level, name, plaintext), p) == Ok((plaintext, level))
       <==> level >= DEFAULT_LEVEL && NameOk(name)
  {
    match p
    case ById(id) => NumericRoundTrip(id, level, name, plaintext);
    case ByKey(key) => KeyedRoundTrip(age.validRecipient, key, level, name, plaintext);
  }

  /** A sealed value comes back to an identity exactly when it is one of the recipients', the level
      is readable and the name is safe. */
  lemma UnsealOfSeal(age: Age, p: Project, plaintext: string, recipients: seq<string>, name: string,
                     level: int64, nonce: nat, identity: string)
    requires age.Lawful() && Sealable(age, p, recipients, level)
    ensures Unseal(age, Seal(age, p, plaintext, recipients, name, level, nonce).value, identity, p) == Ok((plaintext, level))
       <==> && age.recipientOf(identity).Some? && age.recipientOf(identity).value in recipients
            && level >= DEFAULT_LEVEL && NameOk(name)
  {
    PayloadRoundTrip(age, p, level, name, plaintext);
  }

  /** Whoever opens a ciphertext, for whatever project of the same family, sees the same thing. */
  lemma UnsealAgrees(age: Age, ct: Ciphertext, id1: string, p1: Project, id2: string, p2: Project)
    requires p1.ById? <==> p2.ById?
    requires Unseal(age, ct, id1, p1).Ok? && Unseal(age, ct, id2, p2).Ok?
    ensures p1 == p2 && Unseal(age, ct, id1, p1) == Unseal(age, ct, id2, p2)
  {
    match (p1, p2)
    case (ById(a), ById(b)) => OpenedForOne(age.validRecipient, ct.payload, a, b, "", "");
    case (ByKey(a), ByKey(b)) => OpenedForOne(age.validRecipient, ct.payload, 0, 0, a, b);
    case _ =>
  }

  // ---------------------------------------------------------------- SSH signatures

  datatype Message = SectionBytes(digest: Digest) | Challenge(nonce: string)

  /** The `sig` string of a signature: absent, undecodable, or made by a key over a message. */
  datatype Signature = Missing | Garbage | Signed(key: string, over: Message)

  /** VerifySSHSig returns nil. */
  predicate Verifies(key: string, msg: Message, sig: Signature) {
    sig == Signed(key, msg)
  }

  /** An SSH signer: its public key and that key's fingerprint. */
  datatype Signer = Signer(key: string, fingerprint: string) {
    function Sign(msg: Message): Signature {
      Signed(key, msg)
    }
  }
}
