/** Encrypted passwords as text: the dali-v2 format, printed, parsed and opened.

    Argon2id (RFC 9106), AES-GCM (NIST SP 800-38D) and base64 (section 4 of RFC 4648) are
    values of function type, known only by their laws. */
module Blobs {
  import opened Text

  newtype byte = x: int | 0 <= x < 256
  type Bytes = seq<byte>

  datatype Cost = Cost(memoryKib: nat, iterations: nat, lanes: nat)

  /** derive is Argon2id, seal and open AES-GCM with associated data, encode and decode base64;
      utf8 and text are the encoding of strings. */
  datatype Crypto = Crypto(
    derive: (string, Bytes, Cost) -> Bytes,
    seal: (Bytes, Bytes, Bytes, Bytes) -> Bytes,
    open: (Bytes, Bytes, Bytes, Bytes) -> Option<Bytes>,
    encode: Bytes -> string,
    decode: string -> Option<Bytes>,
    utf8: string -> Bytes,
    text: Bytes -> Option<string>)

  const VERSION := "dali-v2"
  const NAME := "argon2id"
  const SALT_SIZE := 16
  const NONCE_SIZE := 12
  const TAG_SIZE := 16
  const NEW_COST := Cost(262144, 3, 4)
  const MAXIMUM_COST := Cost(4194304, 64, 64)

  /** Base64 text has no separator of the format, no quote and no line break. */
  predicate PlainText(s: string) {
    Free(s, '$') && Free(s, '\'') && Free(s, '\n')
  }

  /** What is sealed opens with the same key and associated data and with no other; a derived
      key belongs to one secrets key; and the encodings can be undone. */
  ghost predicate Lawful(c: Crypto) {
    && (forall k, n, p, a :: c.open(k, n, c.seal(k, n, p, a), a) == Some(p) && |c.seal(k, n, p, a)| >= TAG_SIZE)
    && (forall k, n, p, a, l, b :: c.open(l, n, c.seal(k, n, p, a), b).Some? ==> l == k && b == a)
    && (forall k, l, s, cost :: c.derive(k, s, cost) == c.derive(l, s, cost) ==> k == l)
    && (forall b :: c.decode(c.encode(b)) == Some(b) && PlainText(c.encode(b)))
    && (forall s :: c.text(c.utf8(s)) == Some(s))
  }

  datatype Problem = OldFormat | MalformedCost | UnreasonableCost | InvalidBase64 | Truncated | WrongKey | NotText
  datatype Result<T> = Ok(value: T) | Err(problem: Problem)

  // ------------------------------------------------------------------ the cost

  function CostField(letter: char, n: nat): (s: string)
    ensures Free(s, '$') || letter == '$'
  {
    [letter, '='] + Decimal(n)
  }

  function Encoded(cost: Cost): string {
    Join([CostField('m', cost.memoryKib), CostField('t', cost.iterations), CostField('p', cost.lanes)], ',')
  }

  predicate IsCostField(s: string, letter: char) {
    |s| > 2 && s[0] == letter && s[1] == '=' && AllDigits(s[2..])
  }

  predicate InBounds(cost: Cost) {
    && 0 < cost.memoryKib <= MAXIMUM_COST.memoryKib
    && 0 < cost.iterations <= MAXIMUM_COST.iterations
    && 0 < cost.lanes <= MAXIMUM_COST.lanes
  }

  function ParseCost(s: string): Result<Cost> {
    var parts := Split(s, ',');
    if |parts| == 3 && IsCostField(parts[0], 'm') && IsCostField(parts[1], 't') && IsCostField(parts[2], 'p') then
      var cost := Cost(Number(parts[0][2..]), Number(parts[1][2..]), Number(parts[2][2..]));
      if InBounds(cost) then Ok(cost) else Err(UnreasonableCost)
    else Err(MalformedCost)
  }

  lemma CostFieldParses(letter: char, n: nat)
    requires letter != ',' && !IsDigit(letter)
    ensures IsCostField(CostField(letter, n), letter) && Number(CostField(letter, n)[2..]) == n
    ensures Free(CostField(letter, n), ',')
  {
    DecimalRoundTrip(n);
    assert CostField(letter, n)[2..] == Decimal(n);
  }

  /** A printed cost parses back, exactly when it is at least 1 and at most 4 GiB, 64 passes and
      64 lanes. */
  lemma CostRoundTrip(cost: Cost)
    ensures ParseCost(Encoded(cost)) ==
      if 1 <= cost.memoryKib <= 4194304 && 1 <= cost.iterations <= 64 && 1 <= cost.lanes <= 64 then Ok(cost)
      else Err(UnreasonableCost)
  {
    var parts := [CostField('m', cost.memoryKib), CostField('t', cost.iterations), CostField('p', cost.lanes)];
    CostFieldParses('m', cost.memoryKib);
    CostFieldParses('t', cost.iterations);
    CostFieldParses('p', cost.lanes);
    SplitJoin(parts, ',');
  }

  lemma EncodedFree(cost: Cost)
    ensures Free(Encoded(cost), '$')
  {
    JoinFree([CostField('m', cost.memoryKib), CostField('t', cost.iterations), CostField('p', cost.lanes)], ',', '$');
  }

  // ------------------------------------------------------------------ the blob

  function AssociatedData(c: Crypto, setting: string): Bytes {
    c.utf8(VERSION + ":" + setting)
  }

  function Blob(cost: Cost, salt: string, payload: string): string {
    Join([VERSION, NAME, Encoded(cost), salt, payload], '$')
  }

  /** A secret sealed at some cost. */
  function Sealed(c: Crypto, cost: Cost, plaintext: string, key: string, setting: string, salt: Bytes,
          nonce: Bytes): string {
    var ciphertext := c.seal(c.derive(key, salt, cost), nonce, c.utf8(plaintext), AssociatedData(c, setting));
    Blob(cost, c.encode(salt), c.encode(nonce + ciphertext))
  }

  /** `encrypt_secret`, given the salt and nonce it draws. */
  function EncryptSecret(c: Crypto, plaintext: string, key: string, setting: string, salt: Bytes,
          nonce: Bytes): string {
    Sealed(c, NEW_COST, plaintext, key, setting, salt, nonce)
  }

  function DecryptSecret(c: Crypto, blob: string, key: string, setting: string): Result<string> {
    var parts := Split(blob, '$');
    if |parts| != 5 || parts[0] != VERSION || parts[1] != NAME then Err(OldFormat)
    else
      var cost := ParseCost(parts[2]);
      if cost.Err? then Err(cost.problem)
      else
        var salt, payload := c.decode(parts[3]), c.decode(parts[4]);
        if salt.None? || payload.None? then Err(InvalidBase64)
        else if |salt.value| != SALT_SIZE || |payload.value| < NONCE_SIZE + TAG_SIZE then Err(Truncated)
        else
          var nonce, ciphertext := payload.value[..NONCE_SIZE], payload.value[NONCE_SIZE..];
          var unsealed := c.open(c.derive(key, salt.value, cost.value), nonce, ciphertext, AssociatedData(c, setting));
          if unsealed.None? then Err(WrongKey)
          else
            var plaintext := c.text(unsealed.value);
            if plaintext.None? then Err(NotText) else Ok(plaintext.value)
  }

  lemma BlobParts(cost: Cost, salt: string, payload: string)
    requires Free(salt, '$') && Free(payload, '$')
    ensures Split(Blob(cost, salt, payload), '$') == [VERSION, NAME, Encoded(cost), salt, payload]
  {
    EncodedFree(cost);
    assert Free(VERSION, '$') && Free(NAME, '$');
    SplitJoin([VERSION, NAME, Encoded(cost), salt, payload], '$');
  }

  lemma UtfInjective(c: Crypto, a: string, b: string)
    requires Lawful(c) && c.utf8(a) == c.utf8(b)
    ensures a == b
  {
    assert c.text(c.utf8(a)) == Some(a) && c.text(c.utf8(b)) == Some(b);
  }

  lemma SameSetting(c: Crypto, a: string, b: string)
    requires Lawful(c) && AssociatedData(c, a) == AssociatedData(c, b)
    ensures a == b
  {
    UtfInjective(c, VERSION + ":" + a, VERSION + ":" + b);
    assert (VERSION + ":" + a)[|VERSION + ":"|..] == a && (VERSION + ":" + b)[|VERSION + ":"|..] == b;
  }

  /** A blob of any cost within the bounds opens with its own key under its own setting, to the
      plaintext, and with nothing else; so two secrets cannot be swapped. */
  lemma OpensExactly(c: Crypto, cost: Cost, plaintext: string, key: string, setting: string, salt: Bytes, nonce: Bytes,
                     otherKey: string, otherSetting: string)
    requires Lawful(c) && |salt| == SALT_SIZE && |nonce| == NONCE_SIZE
    ensures DecryptSecret(c, Sealed(c, cost, plaintext, key, setting, salt, nonce), otherKey, otherSetting) ==
      if !InBounds(cost) then Err(UnreasonableCost)
      else if otherKey == key && otherSetting == setting then Ok(plaintext)
      else Err(WrongKey)
  {
    var derived, data := c.derive(key, salt, cost), AssociatedData(c, setting);
    var ciphertext := c.seal(derived, nonce, c.utf8(plaintext), data);
    var payload := nonce + ciphertext;
    assert PlainText(c.encode(salt)) && PlainText(c.encode(payload));
    BlobParts(cost, c.encode(salt), c.encode(payload));
    CostRoundTrip(cost);
    assert c.decode(c.encode(salt)) == Some(salt) && c.decode(c.encode(payload)) == Some(payload);
    assert payload[..NONCE_SIZE] == nonce && payload[NONCE_SIZE..] == ciphertext;
    assert c.open(derived, nonce, ciphertext, data) == Some(c.utf8(plaintext));
    if c.open(c.derive(otherKey, salt, cost), nonce, ciphertext, AssociatedData(c, otherSetting)).Some? {
      SameSetting(c, setting, otherSetting);
    }
  }
}
