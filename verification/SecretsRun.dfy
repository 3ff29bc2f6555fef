/** The encrypt-secrets command: over any sequence of runs, one key opens the stored passwords. */
module SecretsRun {
  import opened Text
  import opened Blobs
  import opened SecretsFile
  import opened StoredSecrets

  datatype Password = Luks | User

  const FIELDS: seq<Password> := [Luks, User]

  function KeyName(p: Password): string {
    match p
    case Luks => "luks_password_encrypted"
    case User => "user_password_encrypted"
  }

  /** The name bound into a ciphertext. */
  function SettingName(p: Password): string {
    match p
    case Luks => "luks_password"
    case User => "user_password"
  }

  /** What a run is given, and the salt and nonce it draws for each password. */
  datatype Run = Run(key: string, luks: string, user: string, noWrite: bool, salt: Password -> Bytes, nonce: Password -> Bytes)

  function Given(run: Run, p: Password): string {
    match p
    case Luks => run.luks
    case User => run.user
  }

  ghost predicate Drawn(run: Run) {
    forall p :: |run.salt(p)| == SALT_SIZE && |run.nonce(p)| == NONCE_SIZE
  }

  datatype Refusal = NoKey | NoPasswords | NoFile | Unparsed | MixedKeys | NotPlaced
  datatype Ending = Written | Printed | Refused(why: Refusal)

  /** `_encrypt_if_given` */
  function Encrypted(c: Crypto, run: Run, p: Password): string {
    if Given(run, p) != "" then EncryptSecret(c, Given(run, p), run.key, SettingName(p), run.salt(p), run.nonce(p)) else ""
  }

  /** The stored secrets; a key the section does not declare is refused like a file that does
      not parse. */
  function Secrets(lines: Lines): Option<map<string, string>> {
    var stored := Stored(lines);
    if stored.Some? && stored.value.Keys <= {KeyName(Luks), KeyName(User)} then stored else None
  }

  function StoredValue(lines: Lines, p: Password): string {
    var secrets := Secrets(lines);
    if secrets.Some? && KeyName(p) in secrets.value then secrets.value[KeyName(p)] else ""
  }

  /** The secret p would have after the run: the new one, or the one kept from the file. */
  function Merged(c: Crypto, lines: Lines, run: Run, p: Password): string {
    if Encrypted(c, run, p) != "" then Encrypted(c, run, p) else StoredValue(lines, p)
  }

  predicate Opens(c: Crypto, blob: string, key: string, p: Password) {
    blob == "" || DecryptSecret(c, blob, key, SettingName(p)).Ok?
  }

  function Edited(c: Crypto, lines: Lines, run: Run, k: nat): Lines
    requires k <= |FIELDS|
  {
    if k == 0 then lines
    else
      var before := Edited(c, lines, run, k - 1);
      var p := FIELDS[k - 1];
      if Encrypted(c, run, p) != "" then SetLine(before, KeyName(p), Encrypted(c, run, p)) else before
  }

  predicate Placed(c: Crypto, edited: Lines, run: Run) {
    && Secrets(edited).Some?
    && forall i :: 0 <= i < |FIELDS| ==>
      Encrypted(c, run, FIELDS[i]) != "" ==> StoredValue(edited, FIELDS[i]) == Encrypted(c, run, FIELDS[i])
  }

  /** `_refuse_mixed_keys` finds nothing that the run's key does not open. */
  predicate AllOpen(c: Crypto, lines: Lines, run: Run) {
    forall i :: 0 <= i < |FIELDS| ==> Opens(c, Merged(c, lines, run, FIELDS[i]), run.key, FIELDS[i])
  }

  function EndingOf(c: Crypto, file: Option<Lines>, run: Run): Ending {
    if run.key == "" then Refused(NoKey)
    else if run.luks == "" && run.user == "" then Refused(NoPasswords)
    else if run.noWrite then Printed
    else if file.None? then Refused(NoFile)
    else if Secrets(file.value).None? then Refused(Unparsed)
    else if !AllOpen(c, file.value, run) then Refused(MixedKeys)
    else if !Placed(c, Edited(c, file.value, run, |FIELDS|), run) then Refused(NotPlaced)
    else Written
  }

  /** A run that does not end with the file written leaves it as it was. */
  function FileAfter(c: Crypto, file: Option<Lines>, run: Run): Option<Lines> {
    if EndingOf(c, file, run) == Written then Some(Edited(c, file.value, run, |FIELDS|)) else file
  }

  class SecretsStore {
    const crypto: Crypto
    var file: Option<Lines>

    constructor (crypto: Crypto, file: Option<Lines>)
      ensures this.crypto == crypto && this.file == file
    {
      this.crypto := crypto;
      this.file := file;
    }

    /** `_encrypt_secrets`, with `_refuse_mixed_keys` before the file is touched. */
    method EncryptSecrets(run: Run) returns (e: Ending)
      modifies this
      ensures e == EndingOf(crypto, old(file), run) && file == FileAfter(crypto, old(file), run)
      ensures e != Written ==> file == old(file)
      ensures (Lawful(crypto) && Drawn(run) && run.key != "" && (run.luks != "" || run.user != "") && !run.noWrite
               && old(file).Some? && Secrets(old(file).value).Some?) ==>
        (e == Refused(MixedKeys) <==> exists p :: KeptUnderOtherKey(crypto, old(file).value, run, p))
      ensures e == Written && Lawful(crypto) && Drawn(run) && old(file).Some? && old(file).value != [] ==>
        file.Some? && OneKey(crypto, file.value, run.key)
    {
      ghost var before := file;
      if run.key == "" {
        return Refused(NoKey);
      }
      if run.luks == "" && run.user == "" {
        return Refused(NoPasswords);
      }
      if run.noWrite {
        return Printed;
      }
      if file.None? {
        return Refused(NoFile);
      }
      if Secrets(file.value).None? {
        return Refused(Unparsed);
      }
      if Lawful(crypto) && Drawn(run) {
        MixedKeysFound(crypto, file.value, run);
      }
      if !AllOpen(crypto, file.value, run) {
        return Refused(MixedKeys);
      }
      e := WriteEncryptedSecrets(run);
      if e == Written && Lawful(crypto) && Drawn(run) && before.value != [] {
        WrittenHasOneKey(crypto, before.value, run);
      }
    }

    /** Edits a copy of the text field by field, and writes it only when the secrets read back. */
    method WriteEncryptedSecrets(run: Run) returns (e: Ending)
      requires file.Some?
      modifies this
      ensures var edited := Edited(crypto, old(file).value, run, |FIELDS|);
        if Placed(crypto, edited, run) then e == Written && file == Some(edited)
        else e == Refused(NotPlaced) && file == old(file)
    {
      var text := file.value;
      var i := 0;
      while i < |FIELDS|
        invariant 0 <= i <= |FIELDS|
        invariant text == Edited(crypto, file.value, run, i) && file == old(file)
      {
        var value := Encrypted(crypto, run, FIELDS[i]);
        if value != "" {
          text := SetLine(text, KeyName(FIELDS[i]), value);
        }
        i := i + 1;
      }
      if !Placed(crypto, text, run) {
        return Refused(NotPlaced);
      }
      file := Some(text);
      return Written;
    }
  }

  /** The file stores a secret for a password that is not given, and the run's key does not open
      it. */
  ghost predicate KeptUnderOtherKey(c: Crypto, lines: Lines, run: Run, p: Password) {
    && Given(run, p) == ""
    && var stored := Stored(lines);
       && stored.Some? && KeyName(p) in stored.value && stored.value[KeyName(p)] != ""
       && DecryptSecret(c, stored.value[KeyName(p)], run.key, SettingName(p)).Err?
  }

  /** An update is refused for mixing keys exactly when it would keep such a secret. */
  lemma MixedKeysFound(c: Crypto, lines: Lines, run: Run)
    requires Lawful(c) && Drawn(run) && Secrets(lines).Some?
    ensures !AllOpen(c, lines, run) <==> exists p :: KeptUnderOtherKey(c, lines, run, p)
  {
    forall p
      ensures Opens(c, Merged(c, lines, run, p), run.key, p) <==> !KeptUnderOtherKey(c, lines, run, p)
    {
      EncryptedIsThere(c, run, p);
      if Given(run, p) != "" {
        EncryptedOpens(c, run, p);
      }
    }
    FieldIndex(Luks);
    FieldIndex(User);
    assert FIELDS[0] == Luks && FIELDS[1] == User && |FIELDS| == 2;
  }

  // ------------------------------------------------------------------ one key

  /** Every stored password opens with the key, each under its own name. */
  predicate OneKey(c: Crypto, lines: Lines, key: string) {
    forall p :: Opens(c, StoredValue(lines, p), key, p)
  }

  lemma KeysAreKeys()
    ensures forall p :: IsKey(KeyName(p))
    ensures KeyName(Luks) != KeyName(User)
  {
    assert KeyName(Luks)[0] != KeyName(User)[0];
  }

  lemma SealedIsPlain(c: Crypto, cost: Cost, plaintext: string, key: string, setting: string, salt: Bytes, nonce: Bytes)
    requires Lawful(c)
    ensures Free(Sealed(c, cost, plaintext, key, setting, salt, nonce), '\'')
  {
    var ciphertext := c.seal(c.derive(key, salt, cost), nonce, c.utf8(plaintext), AssociatedData(c, setting));
    assert PlainText(c.encode(salt)) && PlainText(c.encode(nonce + ciphertext));
    BlobIsPlain(cost, c.encode(salt), c.encode(nonce + ciphertext));
  }

  lemma BlobIsPlain(cost: Cost, salt: string, payload: string)
    requires Free(salt, '\'') && Free(payload, '\'')
    ensures Free(Blob(cost, salt, payload), '\'')
  {
    assert Free(VERSION, '\'') && Free(NAME, '\'');
    JoinFree([CostField('m', cost.memoryKib), CostField('t', cost.iterations), CostField('p', cost.lanes)], ',', '\'');
    JoinFree([VERSION, NAME, Encoded(cost), salt, payload], '$', '\'');
  }

  lemma EncryptedIsPlain(c: Crypto, run: Run, p: Password)
    requires Lawful(c)
    ensures Free(Encrypted(c, run, p), '\'')
  {
    if Given(run, p) != "" {
      SealedIsPlain(c, NEW_COST, Given(run, p), run.key, SettingName(p), run.salt(p), run.nonce(p));
    }
  }

  /** The password that is not given keeps the secret the file had. */
  lemma {:induction false} KeptSecret(c: Crypto, lines: Lines, run: Run, p: Password)
    requires Lawful(c) && lines != [] && Secrets(lines).Some? && Encrypted(c, run, p) == ""
    requires Secrets(Edited(c, lines, run, |FIELDS|)).Some?
    ensures StoredValue(Edited(c, lines, run, |FIELDS|), p) == StoredValue(lines, p)
  {
    var other := if p == Luks then User else Luks;
    OneEdited(c, lines, run, p, other);
    if Encrypted(c, run, other) != "" {
      KeysAreKeys();
      EncryptedIsPlain(c, run, other);
      SetKeepsOther(lines, KeyName(other), Encrypted(c, run, other), p);
    }
  }

  lemma SetKeepsOther(lines: Lines, key: string, value: string, p: Password)
    requires IsKey(key) && Free(value, '\'') && lines != [] && key != KeyName(p)
    requires Secrets(lines).Some? && Secrets(SetLine(lines, key, value)).Some?
    ensures StoredValue(SetLine(lines, key, value), p) == StoredValue(lines, p)
  {
    OtherKeysKept(lines, key, value);
    var name := KeyName(p);
    assert name != key;
  }

  lemma {:induction false} OneEdited(c: Crypto, lines: Lines, run: Run, p: Password, other: Password)
    requires p != other && Encrypted(c, run, p) == ""
    ensures Edited(c, lines, run, |FIELDS|) ==
      if Encrypted(c, run, other) != "" then SetLine(lines, KeyName(other), Encrypted(c, run, other)) else lines
  {
    assert Edited(c, lines, run, 0) == lines;
    assert FIELDS[0] == Luks && FIELDS[1] == User && |FIELDS| == 2;
    assert Edited(c, lines, run, 1) ==
      if Encrypted(c, run, Luks) != "" then SetLine(lines, KeyName(Luks), Encrypted(c, run, Luks)) else lines;
  }

  lemma EncryptedOpens(c: Crypto, run: Run, p: Password)
    requires Lawful(c) && Drawn(run) && Given(run, p) != ""
    ensures DecryptSecret(c, Encrypted(c, run, p), run.key, SettingName(p)) == Ok(Given(run, p))
  {
    OpensExactly(c, NEW_COST, Given(run, p), run.key, SettingName(p), run.salt(p), run.nonce(p), run.key, SettingName(p));
  }

  lemma FieldIndex(p: Password)
    ensures p in FIELDS && exists i :: 0 <= i < |FIELDS| && FIELDS[i] == p
  {
    assert p == FIELDS[0] || p == FIELDS[1];
  }

  lemma {:induction false} WrittenChecked(c: Crypto, lines: Lines, run: Run, edited: Lines)
    requires EndingOf(c, Some(lines), run) == Written && edited == Edited(c, lines, run, |FIELDS|)
    ensures FileAfter(c, Some(lines), run) == Some(edited) && Secrets(lines).Some? && Placed(c, edited, run)
    ensures AllOpen(c, lines, run)
  {
  }

  lemma {:induction false} StoredIsMerged(c: Crypto, lines: Lines, run: Run, edited: Lines, p: Password)
    requires Lawful(c) && lines != [] && EndingOf(c, Some(lines), run) == Written && edited == Edited(c, lines, run, |FIELDS|)
    ensures FileAfter(c, Some(lines), run) == Some(edited)
    ensures StoredValue(edited, p) == Merged(c, lines, run, p) && Opens(c, Merged(c, lines, run, p), run.key, p)
  {
    WrittenChecked(c, lines, run, edited);
    FieldIndex(p);
    var i :| 0 <= i < |FIELDS| && FIELDS[i] == p;
    if Encrypted(c, run, p) == "" {
      KeptSecret(c, lines, run, p);
    }
  }

  /** A run that writes leaves a file whose every password opens with the run's key, those given
      to what was given. */
  lemma WrittenOpens(c: Crypto, lines: Lines, run: Run, p: Password)
    requires Lawful(c) && Drawn(run) && lines != [] && EndingOf(c, Some(lines), run) == Written
    ensures var after := FileAfter(c, Some(lines), run).value;
      && Opens(c, StoredValue(after, p), run.key, p)
      && (Given(run, p) != "" ==> DecryptSecret(c, StoredValue(after, p), run.key, SettingName(p)) == Ok(Given(run, p)))
  {
    var edited := Edited(c, lines, run, |FIELDS|);
    StoredIsMerged(c, lines, run, edited, p);
    if Given(run, p) != "" {
      EncryptedOpens(c, run, p);
      NothingOpensEmpty(c, run.key, SettingName(p));
    }
  }

  lemma WrittenHasOneKey(c: Crypto, lines: Lines, run: Run)
    requires Lawful(c) && Drawn(run) && lines != [] && EndingOf(c, Some(lines), run) == Written
    ensures OneKey(c, FileAfter(c, Some(lines), run).value, run.key)
  {
    forall p ensures Opens(c, StoredValue(FileAfter(c, Some(lines), run).value, p), run.key, p) {
      WrittenOpens(c, lines, run, p);
    }
  }

  /** The file has no secrets section, and no line that looks like one of its entries. */
  predicate WithoutSecrets(lines: Lines) {
    FirstHeader(lines).None? && FirstEntry(lines, KeyName(Luks)).None? && FirstEntry(lines, KeyName(User)).None?
  }

  lemma EncryptedIsThere(c: Crypto, run: Run, p: Password)
    requires Lawful(c) && Drawn(run)
    ensures Encrypted(c, run, p) != "" <==> Given(run, p) != ""
  {
    if Given(run, p) != "" {
      EncryptedOpens(c, run, p);
      NothingOpensEmpty(c, run.key, SettingName(p));
    }
  }

  /** What a run makes of a file without secrets. */
  function NewSecrets(c: Crypto, run: Run): map<string, string> {
    if run.user == "" then map[KeyName(Luks) := Encrypted(c, run, Luks)]
    else if run.luks == "" then map[KeyName(User) := Encrypted(c, run, User)]
    else map[KeyName(Luks) := Encrypted(c, run, Luks), KeyName(User) := Encrypted(c, run, User)]
  }

  lemma {:induction false} EditedTwice(c: Crypto, lines: Lines, run: Run)
    ensures Edited(c, lines, run, |FIELDS|) ==
      var first := if Encrypted(c, run, Luks) != "" then SetLine(lines, KeyName(Luks), Encrypted(c, run, Luks)) else lines;
      if Encrypted(c, run, User) != "" then SetLine(first, KeyName(User), Encrypted(c, run, User)) else first
  {
    assert FIELDS[0] == Luks && FIELDS[1] == User && |FIELDS| == 2;
    assert Edited(c, lines, run, 0) == lines;
    assert Edited(c, lines, run, 1) ==
      if Encrypted(c, run, Luks) != "" then SetLine(lines, KeyName(Luks), Encrypted(c, run, Luks)) else lines;
  }

  lemma {:induction false} NewlyStored(c: Crypto, lines: Lines, run: Run)
    requires Lawful(c) && Drawn(run) && lines != [] && WithoutSecrets(lines) && (run.luks != "" || run.user != "")
    ensures Stored(lines) == Some(map[]) && Stored(Edited(c, lines, run, |FIELDS|)) == Some(NewSecrets(c, run))
  {
    KeysAreKeys();
    EncryptedIsThere(c, run, Luks);
    EncryptedIsThere(c, run, User);
    EncryptedIsPlain(c, run, Luks);
    EncryptedIsPlain(c, run, User);
    EditedTwice(c, lines, run);
    SectionAppended(lines, KeyName(Luks), Encrypted(c, run, Luks));
    SectionAppended(lines, KeyName(User), Encrypted(c, run, User));
    BothAppended(lines, KeyName(Luks), Encrypted(c, run, Luks), KeyName(User), Encrypted(c, run, User));
  }

  lemma NewSecretOf(c: Crypto, run: Run, p: Password)
    requires run.luks != "" || run.user != ""
    ensures NewSecrets(c, run).Keys <= {KeyName(Luks), KeyName(User)}
    ensures Given(run, p) != "" ==> KeyName(p) in NewSecrets(c, run) && NewSecrets(c, run)[KeyName(p)] == Encrypted(c, run, p)
  {
    KeysAreKeys();
  }

  lemma NewlyPlaced(c: Crypto, lines: Lines, edited: Lines, run: Run, p: Password, secrets: map<string, string>)
    requires Lawful(c) && Drawn(run) && (run.luks != "" || run.user != "") && secrets == NewSecrets(c, run)
    requires Stored(lines) == Some(map[]) && Stored(edited) == Some(secrets)
    ensures Secrets(lines) == Some(map[]) && Secrets(edited) == Some(secrets)
    ensures Opens(c, Merged(c, lines, run, p), run.key, p)
    ensures Encrypted(c, run, p) != "" ==> StoredValue(edited, p) == Encrypted(c, run, p)
  {
    NewSecretOf(c, run, p);
    EncryptedIsThere(c, run, p);
    if Given(run, p) != "" {
      EncryptedOpens(c, run, p);
    }
  }

  lemma AllPlaced(c: Crypto, lines: Lines, edited: Lines, run: Run, fields: seq<Password>)
    requires Lawful(c) && Drawn(run) && (run.luks != "" || run.user != "")
    requires Stored(lines) == Some(map[]) && Stored(edited) == Some(NewSecrets(c, run))
    ensures Secrets(lines).Some? && Secrets(edited).Some?
    ensures forall i :: 0 <= i < |fields| ==> Opens(c, Merged(c, lines, run, fields[i]), run.key, fields[i])
    ensures forall i :: 0 <= i < |fields| ==>
      Encrypted(c, run, fields[i]) != "" ==> StoredValue(edited, fields[i]) == Encrypted(c, run, fields[i])
  {
    forall p
      ensures Opens(c, Merged(c, lines, run, p), run.key, p)
      ensures Encrypted(c, run, p) != "" ==> StoredValue(edited, p) == Encrypted(c, run, p)
    {
      NewlyPlaced(c, lines, edited, run, p, NewSecrets(c, run));
    }
    NewlyPlaced(c, lines, edited, run, Luks, NewSecrets(c, run));
  }

  lemma {:induction false} EndsWritten(c: Crypto, lines: Lines, run: Run, edited: Lines)
    requires run.key != "" && (run.luks != "" || run.user != "") && !run.noWrite
    requires edited == Edited(c, lines, run, |FIELDS|) && Secrets(lines).Some? && Placed(c, edited, run)
    requires AllOpen(c, lines, run)
    ensures EndingOf(c, Some(lines), run) == Written
  {
  }

  /** A run with a key and a password writes whenever the file has no secrets yet. */
  lemma FirstRunWrites(c: Crypto, lines: Lines, run: Run)
    requires Lawful(c) && Drawn(run) && lines != [] && WithoutSecrets(lines)
    requires run.key != "" && (run.luks != "" || run.user != "") && !run.noWrite
    ensures EndingOf(c, Some(lines), run) == Written
  {
    NewlyStored(c, lines, run);
    var edited := Edited(c, lines, run, |FIELDS|);
    AllPlaced(c, lines, edited, run, FIELDS);
    EndsWritten(c, lines, run, edited);
  }

  lemma NothingOpensEmpty(c: Crypto, key: string, setting: string)
    ensures DecryptSecret(c, "", key, setting) == Err(OldFormat)
  {
  }

  // ------------------------------------------------------------------ sequences of runs

  function FileAfterRuns(c: Crypto, file: Option<Lines>, runs: seq<Run>): Option<Lines> {
    if runs == [] then file
    else FileAfter(c, FileAfterRuns(c, file, runs[..|runs| - 1]), runs[|runs| - 1])
  }

  /** The key of the last run that wrote the file. */
  function LastKey(c: Crypto, file: Option<Lines>, runs: seq<Run>): Option<string> {
    if runs == [] then None
    else
      var front, last := runs[..|runs| - 1], runs[|runs| - 1];
      if EndingOf(c, FileAfterRuns(c, file, front), last) == Written then Some(last.key) else LastKey(c, file, front)
  }

  lemma StaysSome(c: Crypto, lines: Lines, run: Run)
    requires lines != []
    ensures FileAfter(c, Some(lines), run).Some? && FileAfter(c, Some(lines), run).value != []
  {
    EditedSome(c, lines, run, |FIELDS|);
  }

  lemma SetLineSome(lines: Lines, key: string, value: string)
    requires lines != []
    ensures SetLine(lines, key, value) != []
  {
    var edited := SetLine(lines, key, value);
    assert |edited| > 0;
  }

  lemma {:induction false} EditedSome(c: Crypto, lines: Lines, run: Run, k: nat)
    requires lines != [] && k <= |FIELDS|
    ensures Edited(c, lines, run, k) != []
  {
    if k > 0 {
      EditedSome(c, lines, run, k - 1);
      SetLineSome(Edited(c, lines, run, k - 1), KeyName(FIELDS[k - 1]), Encrypted(c, run, FIELDS[k - 1]));
    }
  }

  /** After any sequence of runs, once one has written the file, its key opens every password
      stored. */
  lemma {:induction false} OneKeyAlways(c: Crypto, lines: Lines, runs: seq<Run>)
    requires Lawful(c) && lines != [] && forall i :: 0 <= i < |runs| ==> Drawn(runs[i])
    ensures var after, key := FileAfterRuns(c, Some(lines), runs), LastKey(c, Some(lines), runs);
      after.Some? && after.value != [] && (key.Some? ==> OneKey(c, after.value, key.value))
  {
    if runs != [] {
      var front, last := runs[..|runs| - 1], runs[|runs| - 1];
      OneKeyAlways(c, lines, front);
      var before := FileAfterRuns(c, Some(lines), front).value;
      StaysSome(c, before, last);
      if EndingOf(c, Some(before), last) == Written {
        WrittenHasOneKey(c, before, last);
      }
    }
  }
}
