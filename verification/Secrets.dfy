/**
 Stored secrets: what each format means, how it is written and read, and why no
 reader can see a value other than the one that was saved.
 */
module Secrets {
  import opened Wrappers

  const SEALED_V2_PREFIX := "$capstan$v2$"

  predicate IsSealedV2(s: string) {
    |SEALED_V2_PREFIX| <= |s| && s[..|SEALED_V2_PREFIX|] == SEALED_V2_PREFIX
  }

  // ---------------------------------------------------------------------- cipher

  /**
   Authenticated encryption: seal(key, nonce, plaintext, aad) is the whole v2
   text; open reads a v2 text; openOld reads an unprefixed one, which was sealed
   without associated data under the key or its legacy companion.
   */
  datatype Cipher = Cipher(
    seal: (nat, nat, string, string) -> string,
    open: (nat, string, string) -> Option<string>,
    openOld: (nat, string) -> Option<string>)

  ghost predicate SealsPrefixed(c: Cipher) {
    forall key, nonce, text, aad :: IsSealedV2(c.seal(key, nonce, text, aad))
  }

  ghost predicate OpensItsOwn(c: Cipher) {
    forall key, nonce, text, aad :: c.open(key, c.seal(key, nonce, text, aad), aad) == Some(text)
  }

  /** What another key sealed, or sealed for another place, does not open. */
  ghost predicate OpensOnlyItsOwn(c: Cipher) {
    forall key, nonce, text, aad, other: nat, place: string ::
      c.open(other, c.seal(key, nonce, text, aad), place).Some? ==> other == key && place == aad
  }

  /** An old text opens to one plaintext at most, whatever key opens it. */
  ghost predicate OldTextsAreUnambiguous(c: Cipher) {
    forall key, other, stored ::
      c.openOld(key, stored).Some? && c.openOld(other, stored).Some? ==>
          c.openOld(key, stored) == c.openOld(other, stored)
  }

  ghost predicate Lawful(c: Cipher) {
    SealsPrefixed(c) && OpensItsOwn(c) && OpensOnlyItsOwn(c) && OldTextsAreUnambiguous(c)
  }

  /** The encryptor of a boot: no secret configured, or one key. */
  datatype Encryptor = Keyless | Keyed(key: nat)

  datatype Failure = NotFound | Unavailable | MissingAad | NoEntropy | Undecryptable | Refused | WriteFailed

  function Encrypt(c: Cipher, e: Encryptor, nonce: Option<nat>, text: string, aad: string): Result<string, Failure> {
    if e.Keyless? then Err(Unavailable)
    else if text == "" then Ok("")
    else if aad == "" then Err(MissingAad)
    else if nonce.None? then Err(NoEntropy)
    else Ok(c.seal(e.key, nonce.value, text, aad))
  }

  function Decrypt(c: Cipher, e: Encryptor, stored: string, aad: string): Result<string, Failure> {
    if e.Keyless? then Err(Unavailable)
    else if stored == "" then Ok("")
    else if IsSealedV2(stored) && aad == "" then Err(MissingAad)
    else
      match if IsSealedV2(stored) then c.open(e.key, stored, aad) else c.openOld(e.key, stored)
      case Some(text) => Ok(text)
      case None => Err(Undecryptable)
  }

  /** Nothing is never sealed. */
  lemma NothingStaysNothing(c: Cipher, e: Encryptor, nonce: Option<nat>, aad: string)
    requires e.Keyed?
    ensures Encrypt(c, e, nonce, "", aad) == Ok("") && Decrypt(c, e, "", aad) == Ok("")
  {
  }

  // ---------------------------------------------------------------------- places

  /** The two columns that hold secrets: settings.value by key, directories.git_https_token by path. */
  datatype Column = SettingValue | DirectoryToken

  /** Stored in clear while no key is configured, and before they were encrypted at all. */
  predicate Tolerant(col: Column, row: string) {
    col == SettingValue && (row == "restic_repository" || row == "rclone_remote")
  }

  /** Encrypted at rest: every token, and four of the settings. */
  predicate Sensitive(col: Column, row: string) {
    col == DirectoryToken || row == "git_https_token" || row == "restic_password" || Tolerant(col, row)
  }

  /** Which rows these are. */
  lemma SecretRows(row: string)
    ensures Sensitive(DirectoryToken, row) && !Tolerant(DirectoryToken, row)
    ensures Sensitive(SettingValue, row) <==>
      row in {"git_https_token", "restic_password", "restic_repository", "rclone_remote"}
    ensures Tolerant(SettingValue, row) <==> row in {"restic_repository", "rclone_remote"}
    ensures Aad(SettingValue, row) == "settings:" + row
    ensures Aad(DirectoryToken, row) == "directories.git_https_token:" + row
    ensures IsSealedV2("$capstan$v2$" + row)
  {
  }

  /** The associated data that binds a ciphertext to its place. */
  function Aad(col: Column, row: string): (aad: string)
    ensures aad != ""
  {
    match col
    case SettingValue => "settings:" + row
    case DirectoryToken => "directories.git_https_token:" + row
  }

  /** No two places share associated data. */
  lemma PlacesAreDistinct(a: Column, i: string, b: Column, j: string)
    ensures Aad(a, i) == Aad(b, j) <==> a == b && i == j
  {
    var settings, tokens := "settings:", "directories.git_https_token:";
    assert (settings + i)[|settings|..] == i && (settings + j)[|settings|..] == j;
    assert (tokens + i)[|tokens|..] == i && (tokens + j)[|tokens|..] == j;
    assert (settings + i)[0] == 's' && (settings + j)[0] == 's' && (tokens + i)[0] == 'd' && (tokens + j)[0] == 'd';
  }

  // ----------------------------------------------------------- writing and reading

  /** The value as it is stored: encrypted for a sensitive row, unchanged otherwise. */
  function Encode(c: Cipher, e: Encryptor, nonce: Option<nat>, col: Column, row: string, value: string)
    : Result<string, Failure>
  {
    if !Sensitive(col, row) || value == "" then Ok(value)
    else
      var sealed := Encrypt(c, e, nonce, value, Aad(col, row));
      if sealed.Ok? then sealed
      else if Tolerant(col, row) && sealed.error == Unavailable then
        if IsSealedV2(value) then Err(Refused) else Ok(value)
      else sealed
  }

  function Read(c: Cipher, e: Encryptor, col: Column, row: string, stored: string): Result<string, Failure> {
    if !Sensitive(col, row) || stored == "" then Ok(stored)
    else if Tolerant(col, row) && !IsSealedV2(stored) then Ok(stored)
    else Decrypt(c, e, stored, Aad(col, row))
  }

  // --------------------------------------------------------------------- meaning

  ghost predicate SealedAs(c: Cipher, stored: string, aad: string, value: string) {
    exists key, nonce :: stored == c.seal(key, nonce, value, aad)
  }

  ghost predicate OldFormOf(c: Cipher, stored: string, value: string) {
    !IsSealedV2(stored) && exists key :: c.openOld(key, stored) == Some(value)
  }

  /** The stored text stands for the value at its place. */
  ghost predicate Stands(c: Cipher, col: Column, row: string, stored: string, value: string) {
    if !Sensitive(col, row) || stored == "" then stored == value
    else
      || SealedAs(c, stored, Aad(col, row), value)
      || (Tolerant(col, row) && stored == value && !IsSealedV2(stored))
      || (!Tolerant(col, row) && OldFormOf(c, stored, value))
  }

  lemma SealedIsPrefixed(c: Cipher, stored: string, aad: string, value: string)
    requires Lawful(c)
    ensures SealedAs(c, stored, aad, value) ==> IsSealedV2(stored)
  {
    if SealedAs(c, stored, aad, value) {
      var key, nonce :| stored == c.seal(key, nonce, value, aad);
      assert IsSealedV2(c.seal(key, nonce, value, aad));
    }
  }

  lemma SealedReads(c: Cipher, e: Encryptor, stored: string, aad: string, value: string)
    requires Lawful(c) && SealedAs(c, stored, aad, value) && aad != "" && e.Keyed?
    ensures IsSealedV2(stored)
    ensures c.open(e.key, stored, aad).Some? ==> c.open(e.key, stored, aad) == Some(value)
  {
    var key, nonce :| stored == c.seal(key, nonce, value, aad);
    assert IsSealedV2(c.seal(key, nonce, value, aad));
    if c.open(e.key, c.seal(key, nonce, value, aad), aad).Some? {
      assert e.key == key;
    }
  }

  lemma StandingDecrypts(c: Cipher, e: Encryptor, stored: string, aad: string, value: string)
    requires Lawful(c) && aad != "" && stored != ""
    requires SealedAs(c, stored, aad, value) || OldFormOf(c, stored, value)
    ensures Decrypt(c, e, stored, aad).Err? || Decrypt(c, e, stored, aad) == Ok(value)
  {
    if e.Keyed? {
      if SealedAs(c, stored, aad, value) {
        SealedReads(c, e, stored, aad, value);
      } else {
        var key :| c.openOld(key, stored) == Some(value);
      }
    }
  }

  /** Under any boot's encryptor, a row reads as what it stands for, or fails. */
  lemma ReadsOrFails(c: Cipher, e: Encryptor, col: Column, row: string, stored: string, value: string)
    requires Lawful(c) && Stands(c, col, row, stored, value)
    ensures Read(c, e, col, row, stored).Err? || Read(c, e, col, row, stored) == Ok(value)
  {
    if Sensitive(col, row) && stored != "" {
      SealedIsPrefixed(c, stored, Aad(col, row), value);
      if IsSealedV2(stored) || !Tolerant(col, row) { StandingDecrypts(c, e, stored, Aad(col, row), value); }
    }
  }

  lemma EncryptedIsSealed(c: Cipher, e: Encryptor, nonce: Option<nat>, text: string, aad: string)
    requires Lawful(c) && text != "" && Encrypt(c, e, nonce, text, aad).Ok?
    ensures var sealed := Encrypt(c, e, nonce, text, aad).value;
            && SealedAs(c, sealed, aad, text) && IsSealedV2(sealed) && sealed != ""
            && Decrypt(c, e, sealed, aad) == Ok(text)
  {
    var sealed := c.seal(e.key, nonce.value, text, aad);
    assert IsSealedV2(sealed);
    assert c.open(e.key, c.seal(e.key, nonce.value, text, aad), aad) == Some(text);
  }

  /** What is stored stands for what was saved, and reads back at once. */
  lemma EncodedStands(c: Cipher, e: Encryptor, nonce: Option<nat>, col: Column, row: string, value: string)
    requires Lawful(c) && Encode(c, e, nonce, col, row, value).Ok?
    ensures Stands(c, col, row, Encode(c, e, nonce, col, row, value).value, value)
    ensures Read(c, e, col, row, Encode(c, e, nonce, col, row, value).value) == Ok(value)
  {
    if Sensitive(col, row) && value != "" && Encrypt(c, e, nonce, value, Aad(col, row)).Ok? {
      EncryptedIsSealed(c, e, nonce, value, Aad(col, row));
    }
  }

  /** A secret copied to any other row or column does not decrypt there, whatever the key. */
  lemma MovedSecretFails(c: Cipher, e: Encryptor, col: Column, row: string, stored: string, value: string,
                         otherCol: Column, otherRow: string)
    requires Lawful(c) && SealedAs(c, stored, Aad(col, row), value) && (otherCol != col || otherRow != row)
    ensures Decrypt(c, e, stored, Aad(otherCol, otherRow)).Err?
  {
    var key, nonce :| stored == c.seal(key, nonce, value, Aad(col, row));
    assert IsSealedV2(c.seal(key, nonce, value, Aad(col, row)));
    PlacesAreDistinct(col, row, otherCol, otherRow);
  }

  /** A secret is never stored in clear, but for a tolerant setting while there is no key. */
  ghost predicate Protected(c: Cipher, e: Encryptor, col: Column, row: string, stored: string, value: string) {
    Sensitive(col, row) && value != "" ==>
      (SealedAs(c, stored, Aad(col, row), value) && IsSealedV2(stored)) || (Tolerant(col, row) && e.Keyless?)
  }

  /** What is stored is protected; what is no secret is stored as it is. */
  lemma EncodedIsProtected(c: Cipher, e: Encryptor, nonce: Option<nat>, col: Column, row: string, value: string)
    requires Lawful(c) && Encode(c, e, nonce, col, row, value).Ok?
    ensures Protected(c, e, col, row, Encode(c, e, nonce, col, row, value).value, value)
    ensures !Sensitive(col, row) || value == "" ==> Encode(c, e, nonce, col, row, value) == Ok(value)
  {
    if Sensitive(col, row) && value != "" && Encrypt(c, e, nonce, value, Aad(col, row)).Ok? {
      EncryptedIsSealed(c, e, nonce, value, Aad(col, row));
    }
  }

  /** With a key every save goes through, given entropy. */
  lemma SavingWithAKey(c: Cipher, key: nat, nonce: Option<nat>, col: Column, row: string, value: string)
    ensures Encode(c, Keyed(key), nonce, col, row, value).Ok? <==> !Sensitive(col, row) || value == "" || nonce.Some?
  {
  }

  /** Without a key a password or token cannot be saved, and a tolerant setting only as what is no v2 text. */
  lemma SavingWithoutAKey(c: Cipher, nonce: Option<nat>, col: Column, row: string, value: string)
    ensures Encode(c, Keyless, nonce, col, row, value).Ok?
       <==> !Sensitive(col, row) || value == "" || (Tolerant(col, row) && !IsSealedV2(value))
  {
  }

  // --------------------------------------------------------------- re-encryption

  /** The row is already in the v2 format, or empty: the pass skips it. */
  predicate Settled(stored: string) {
    stored == "" || IsSealedV2(stored)
  }

  /** One row of the pass: Ok(None) leaves it as it is, an error abandons the pass. */
  function Resealed(c: Cipher, e: Encryptor, nonce: Option<nat>, col: Column, row: string, stored: string)
    : Result<Option<string>, Failure>
  {
    match if Tolerant(col, row) then Ok(stored) else Decrypt(c, e, stored, Aad(col, row))
    case Err(_) => Ok(None)
    case Ok(text) =>
      match Encrypt(c, e, nonce, text, Aad(col, row))
      case Err(f) => Err(f)
      case Ok(sealed) =>
        if Decrypt(c, e, sealed, Aad(col, row)) == Ok(text) then Ok(Some(sealed)) else Err(Undecryptable)
  }

  /** The pass has nothing to do here: not a secret, already settled, or unreadable. */
  predicate NotPending(c: Cipher, e: Encryptor, col: Column, row: string, stored: string) {
    !Sensitive(col, row) || Settled(stored) || Read(c, e, col, row, stored).Err?
  }

  /** The row reads as it did, and where there was nothing to do it is byte for byte the same. */
  predicate Preserved(c: Cipher, e: Encryptor, col: Column, row: string, before: string, after: string) {
    && Read(c, e, col, row, after) == Read(c, e, col, row, before)
    && (NotPending(c, e, col, row, before) ==> after == before)
  }

  /** A rewritten row reads as it did and is settled; one that cannot be decrypted is left. */
  lemma ResealedPreserves(c: Cipher, e: Encryptor, nonce: Option<nat>, col: Column, row: string, stored: string,
                          value: string)
    requires Lawful(c) && e.Keyed? && Sensitive(col, row) && !Settled(stored) && Stands(c, col, row, stored, value)
    requires Resealed(c, e, nonce, col, row, stored).Ok?
    ensures match Resealed(c, e, nonce, col, row, stored).value
            case None => Read(c, e, col, row, stored).Err?
            case Some(sealed) =>
              Settled(sealed) && Stands(c, col, row, sealed, value) && Preserved(c, e, col, row, stored, sealed)
  {
    SealedIsPrefixed(c, stored, Aad(col, row), value);
    if !Tolerant(col, row) { StandingDecrypts(c, e, stored, Aad(col, row), value); }
    if value != "" && Encrypt(c, e, nonce, value, Aad(col, row)).Ok? {
      EncryptedIsSealed(c, e, nonce, value, Aad(col, row));
    }
  }

  // ----------------------------------------------------------------- the database

  class SecretStore {
    const cipher: Cipher
    var encryptor: Encryptor
    /** settings by key and git_https_token by directory path, as stored */
    var settings: map<string, string>
    var tokens: map<string, string>
    /** what the last successful save of each was given */
    ghost var saved: map<string, string>
    ghost var savedTokens: map<string, string>

    ghost predicate Valid()
      reads this
    {
      && Lawful(cipher)
      && AllStand(cipher, SettingValue, settings, saved)
      && AllStand(cipher, DirectoryToken, tokens, savedTokens)
    }

    /** A database of any age: values in any of the formats, standing for what was saved. */
    constructor (cipher: Cipher, encryptor: Encryptor, settings: map<string, string>, tokens: map<string, string>,
                 ghost saved: map<string, string>, ghost savedTokens: map<string, string>)
      requires Lawful(cipher)
      requires AllStand(cipher, SettingValue, settings, saved) && AllStand(cipher, DirectoryToken, tokens, savedTokens)
      ensures Valid() && this.saved == saved && this.savedTokens == savedTokens
    {
      this.cipher, this.encryptor, this.settings, this.tokens := cipher, encryptor, settings, tokens;
      this.saved, this.savedTokens := saved, savedTokens;
    }

    /** A later boot, with the same key, another one, or none. */
    method Boot(e: Encryptor)
      requires Valid()
      modifies this`encryptor
      ensures Valid() && encryptor == e
    {
      encryptor := e;
    }

    /** The last value saved, or an error; never another value. */
    method GetSetting(key: string) returns (r: Result<string, Failure>)
      requires Valid()
      ensures key !in settings ==> r == Err(NotFound)
      ensures key in settings ==> r == Read(cipher, encryptor, SettingValue, key, settings[key])
      ensures key in settings ==> r.Err? || r == Ok(saved[key])
    {
      if key !in settings { return Err(NotFound); }
      ReadsOrFails(cipher, encryptor, SettingValue, key, settings[key], saved[key]);
      r := Read(cipher, encryptor, SettingValue, key, settings[key]);
    }

    method GetDirectoryCredentials(path: string) returns (r: Result<string, Failure>)
      requires Valid()
      ensures path !in tokens ==> r == Err(NotFound)
      ensures path in tokens ==> r == Read(cipher, encryptor, DirectoryToken, path, tokens[path])
      ensures path in tokens ==> r.Err? || r == Ok(savedTokens[path])
    {
      if path !in tokens { return Err(NotFound); }
      ReadsOrFails(cipher, encryptor, DirectoryToken, path, tokens[path], savedTokens[path]);
      r := Read(cipher, encryptor, DirectoryToken, path, tokens[path]);
    }

    /** Saved, protected and readable at once, or refused with nothing changed. */
    method SetSetting(key: string, value: string, nonce: Option<nat>, writeFails: bool) returns (r: Result<(), Failure>)
      requires Valid()
      modifies this`settings, this`saved
      ensures Valid()
      ensures r.Ok? ==>
          key in settings && settings == old(settings)[key := settings[key]] && saved == old(saved)[key := value]
      ensures r.Ok? <==> !writeFails && Encode(cipher, encryptor, nonce, SettingValue, key, value).Ok?
      ensures r.Ok? ==> Read(cipher, encryptor, SettingValue, key, settings[key]) == Ok(value)
      ensures r.Ok? ==> Protected(cipher, encryptor, SettingValue, key, settings[key], value)
      ensures r.Err? ==> settings == old(settings) && saved == old(saved)
    {
      var stored := Encode(cipher, encryptor, nonce, SettingValue, key, value);
      if stored.Err? { return Err(stored.error); }
      if writeFails { return Err(WriteFailed); }
      EncodedStands(cipher, encryptor, nonce, SettingValue, key, value);
      EncodedIsProtected(cipher, encryptor, nonce, SettingValue, key, value);
      settings, saved := settings[key := stored.value], saved[key := value];
      r := Ok(());
    }

    /** All of a form's values or none: every one is encoded before the first is written. */
    method SetSettings(values: seq<(string, string)>, nonces: nat -> Option<nat>, failsAt: Option<nat>)
      returns (r: Result<(), Failure>)
      requires Valid()
      modifies this`settings, this`saved
      ensures Valid()
      ensures r.Ok? <==>
        && failsAt == None
        && forall i :: 0 <= i < |values| ==>
             Encode(cipher, encryptor, nonces(i), SettingValue, values[i].0, values[i].1).Ok?
      ensures r.Ok? ==> saved == Overwritten(old(saved), values)
      ensures r.Ok? ==> forall i :: 0 <= i < |values| ==> values[i].0 in settings
      ensures r.Ok? ==> forall i :: 0 <= i < |values| && LastOfKey(values, i) ==>
        && Read(cipher, encryptor, SettingValue, values[i].0, settings[values[i].0]) == Ok(values[i].1)
        && Protected(cipher, encryptor, SettingValue, values[i].0, settings[values[i].0], values[i].1)
      ensures forall key :: key in old(settings) && (forall i :: 0 <= i < |values| ==> values[i].0 != key) ==>
        key in settings && settings[key] == old(settings)[key]
      ensures r.Err? ==> settings == old(settings) && saved == old(saved)
    {
      hide Encode, Read, Protected, Stands, Sensitive, Lawful;
      var stored: seq<string>;
      stored, r := EncodeAll(values, nonces);
      if r.Err? { return; }
      var written, rows := WriteAll(values, stored, failsAt);
      if !written { return Err(WriteFailed); }
      settings, saved := rows, Overwritten(saved, values);
    }

    method EncodeAll(values: seq<(string, string)>, nonces: nat -> Option<nat>)
      returns (stored: seq<string>, r: Result<(), Failure>)
      requires Valid()
      ensures r.Ok? <==> forall i :: 0 <= i < |values| ==>
        Encode(cipher, encryptor, nonces(i), SettingValue, values[i].0, values[i].1).Ok?
      ensures r.Ok? ==> EachStands(cipher, encryptor, values, stored)
    {
      hide Encode, Read, Protected, Stands, Sensitive, Lawful;
      stored := [];
      var i := 0;
      while i < |values|
        invariant 0 <= i <= |values| && EachStands(cipher, encryptor, values[..i], stored)
        invariant forall k :: 0 <= k < i ==>
          Encode(cipher, encryptor, nonces(k), SettingValue, values[k].0, values[k].1).Ok?
      {
        var encoded := Encode(cipher, encryptor, nonces(i), SettingValue, values[i].0, values[i].1);
        if encoded.Err? { return stored, Err(encoded.error); }
        EncodedStands(cipher, encryptor, nonces(i), SettingValue, values[i].0, values[i].1);
        EncodedIsProtected(cipher, encryptor, nonces(i), SettingValue, values[i].0, values[i].1);
        stored := stored + [encoded.value];
        i := i + 1;
      }
      assert values[..i] == values;
      r := Ok(());
    }

    /** The transaction's writes; any of them, or the commit, may fail. */
    method WriteAll(values: seq<(string, string)>, stored: seq<string>, failsAt: Option<nat>)
      returns (ok: bool, rows: map<string, string>)
      requires Valid() && EachStands(cipher, encryptor, values, stored)
      ensures ok <==> failsAt == None
      ensures ok ==> AllStand(cipher, SettingValue, rows, Overwritten(saved, values))
      ensures ok ==> Written(settings, values, stored, rows)
    {
      hide Stands, Read, Protected, Lawful, AllStand, Overwritten, Written;
      rows := settings;
      NothingWritten(settings, saved, values, stored);
      var i := 0;
      while i < |values|
        invariant 0 <= i <= |values|
        invariant AllStand(cipher, SettingValue, rows, Overwritten(saved, values[..i]))
        invariant Written(settings, values[..i], stored[..i], rows)
        invariant failsAt.None? || failsAt.value >= i
      {
        if failsAt == Some(i) { return false, rows; }
        assert values[..i + 1][..i] == values[..i] && stored[..i + 1][..i] == stored[..i];
        WrittenStep(settings, values[..i + 1], stored[..i + 1], rows);
        StandingStep(cipher, rows, saved, values[..i + 1], stored[i]);
        rows := rows[values[i].0 := stored[i]];
        i := i + 1;
      }
      assert values[..i] == values && stored[..i] == stored;
      ok := failsAt == None;
    }

    /** UPDATE ... WHERE path = ?: a directory with no row is not an error, and nothing is written. */
    method UpdateDirectoryCredentials(path: string, token: string, nonce: Option<nat>, writeFails: bool)
      returns (r: Result<(), Failure>)
      requires Valid()
      modifies this`tokens, this`savedTokens
      ensures Valid()
      ensures r.Ok? && path in old(tokens) ==>
        && path in tokens && tokens == old(tokens)[path := tokens[path]]
            && savedTokens == old(savedTokens)[path := token]
        && Read(cipher, encryptor, DirectoryToken, path, tokens[path]) == Ok(token)
        && Protected(cipher, encryptor, DirectoryToken, path, tokens[path], token)
      ensures r.Ok? <==> !writeFails && Encode(cipher, encryptor, nonce, DirectoryToken, path, token).Ok?
      ensures r.Err? || path !in old(tokens) ==> tokens == old(tokens) && savedTokens == old(savedTokens)
    {
      var stored := Encode(cipher, encryptor, nonce, DirectoryToken, path, token);
      if stored.Err? { return Err(stored.error); }
      if writeFails { return Err(WriteFailed); }
      EncodedIsProtected(cipher, encryptor, nonce, DirectoryToken, path, token);
      EncodedStands(cipher, encryptor, nonce, DirectoryToken, path, token);
      if path in tokens { tokens, savedTokens := tokens[path := stored.value], savedTokens[path := token]; }
      r := Ok(());
    }

    /**
     All or nothing.  Every row reads as it did, what could not be decrypted is
     byte for byte what it was, and nothing is left for a second pass to rewrite.
     */
    method ReencryptSecrets(nonces: nat -> Option<nat>, failsAt: Option<nat>) returns (r: Result<nat, Failure>)
      requires Valid()
      modifies this`settings, this`tokens
      ensures Valid()
      ensures r.Err? || encryptor.Keyless? ==> settings == old(settings) && tokens == old(tokens)
      ensures encryptor.Keyed? && failsAt.Some? ==> r.Err?
      ensures encryptor.Keyless? || (failsAt == None && forall n :: nonces(n).Some?) ==> r.Ok?
      ensures AllPreserved(cipher, encryptor, SettingValue, old(settings), settings)
      ensures AllPreserved(cipher, encryptor, DirectoryToken, old(tokens), tokens)
      ensures settings.Keys == old(settings).Keys && tokens.Keys == old(tokens).Keys
      ensures forall key :: key in settings ==>
        Read(cipher, encryptor, SettingValue, key, settings[key])
        == Read(cipher, encryptor, SettingValue, key, old(settings)[key])
      ensures forall path :: path in tokens ==>
        Read(cipher, encryptor, DirectoryToken, path, tokens[path])
        == Read(cipher, encryptor, DirectoryToken, path, old(tokens)[path])
      ensures r.Ok? && encryptor.Keyed? ==>
        NonePending(cipher, encryptor, SettingValue, settings) && NonePending(cipher, encryptor, DirectoryToken, tokens)
      ensures r.Ok? && NonePending(cipher, encryptor, SettingValue, old(settings))
              && NonePending(cipher, encryptor, DirectoryToken, old(tokens)) ==>
        r == Ok(0) && settings == old(settings) && tokens == old(tokens)
    {
      if encryptor.Keyless? { return Ok(0); }
      var rows, n, drawn := ReencryptRows(SettingValue, settings, saved, nonces, 0, failsAt);
      if rows.Err? { return Err(rows.error); }
      var tokenRows, m, _ := ReencryptRows(DirectoryToken, tokens, savedTokens, nonces, drawn, failsAt);
      if tokenRows.Err? { return Err(tokenRows.error); }
      if failsAt.Some? { return Err(WriteFailed); }
      settings, tokens := rows.value, tokenRows.value;
      r := Ok(n + m);
    }

    /** The pass over one column, inside the transaction; the rows come in any order. */
    method ReencryptRows(col: Column, before: map<string, string>, ghost meant: map<string, string>,
                         nonces: nat -> Option<nat>, from: nat, failsAt: Option<nat>)
      returns (after: Result<map<string, string>, Failure>, rewritten: nat, drawn: nat)
      requires Lawful(cipher) && encryptor.Keyed? && AllStand(cipher, col, before, meant)
      ensures failsAt == None && (forall n :: nonces(n).Some?) ==> after.Ok?
      ensures after.Ok? ==>
        && AllStand(cipher, col, after.value, meant)
        && AllPreserved(cipher, encryptor, col, before, after.value)
        && NonePending(cipher, encryptor, col, after.value)
        && (NonePending(cipher, encryptor, col, before) ==> rewritten == 0 && after.value == before)
    {
      hide Read, Resealed, Stands, Sensitive, Lawful, AllStand, Settled;
      var rows := before;
      rewritten, drawn := 0, from;
      var pending := set row | row in before && Sensitive(col, row) && !Settled(before[row]);
      while pending != {}
        invariant PassSoFar(cipher, encryptor, col, before, rows, pending, meant)
        invariant NonePending(cipher, encryptor, col, before) ==> rewritten == 0 && rows == before
        decreases |pending|
      {
        var row :| row in pending;
        var nonce := nonces(drawn);
        var resealed := Resealed(cipher, encryptor, nonce, col, row, rows[row]);
        ResealsWithEntropy(cipher, encryptor, nonce, col, row, rows[row]);
        if resealed.Err? { return Err(resealed.error), rewritten, drawn; }
        if failsAt == Some(drawn) { return Err(WriteFailed), rewritten, drawn; }
        PassStep(cipher, encryptor, nonce, col, before, rows, pending, meant, row);
        if resealed.value.Some? {
          rows := rows[row := resealed.value.value];
          rewritten := rewritten + 1;
        }
        pending, drawn := pending - {row}, drawn + 1;
      }
      after := Ok(rows);
    }
  }

  /** Given entropy, no row abandons the pass. */
  lemma ResealsWithEntropy(c: Cipher, e: Encryptor, nonce: Option<nat>, col: Column, row: string, stored: string)
    requires Lawful(c) && e.Keyed?
    ensures nonce.Some? ==> Resealed(c, e, nonce, col, row, stored).Ok?
  {
    var read := if Tolerant(col, row) then Ok(stored) else Decrypt(c, e, stored, Aad(col, row));
    if read.Ok? && read.value != "" && nonce.Some? {
      EncryptedIsSealed(c, e, nonce, read.value, Aad(col, row));
    }
  }

  /** The pass part way: the pending rows as they were, every other one done with. */
  ghost predicate PassSoFar(c: Cipher, e: Encryptor, col: Column, before: map<string, string>,
                            rows: map<string, string>,
                            pending: set<string>, meant: map<string, string>) {
    && pending <= rows.Keys
    && AllStand(c, col, rows, meant) && AllPreserved(c, e, col, before, rows)
    && (forall row :: row in pending ==> Sensitive(col, row) && !Settled(rows[row]))
    && (forall row :: row in rows && row !in pending ==> NotPending(c, e, col, row, rows[row]))
  }

  lemma PassStep(c: Cipher, e: Encryptor, nonce: Option<nat>, col: Column, before: map<string, string>,
                 rows: map<string, string>, pending: set<string>, meant: map<string, string>, row: string)
    requires Lawful(c) && e.Keyed? && row in pending && PassSoFar(c, e, col, before, rows, pending, meant)
    requires Resealed(c, e, nonce, col, row, rows[row]).Ok?
    ensures var resealed := Resealed(c, e, nonce, col, row, rows[row]).value;
            PassSoFar(c, e, col, before,
                      if resealed.Some? then rows[row := resealed.value] else rows, pending - {row}, meant)
    ensures NonePending(c, e, col, rows) ==> Resealed(c, e, nonce, col, row, rows[row]).value.None?
  {
    hide Read, Resealed, Stands, Lawful, Settled, Sensitive;
    ResealedPreserves(c, e, nonce, col, row, rows[row], meant[row]);
  }

  ghost predicate AllStand(c: Cipher, col: Column, rows: map<string, string>, meant: map<string, string>) {
    rows.Keys == meant.Keys && forall row :: row in rows ==> Stands(c, col, row, rows[row], meant[row])
  }

  ghost predicate EachStands(c: Cipher, e: Encryptor, values: seq<(string, string)>, stored: seq<string>) {
    |stored| == |values|
    && forall i :: 0 <= i < |values| ==>
         && Stands(c, SettingValue, values[i].0, stored[i], values[i].1)
         && Read(c, e, SettingValue, values[i].0, stored[i]) == Ok(values[i].1)
         && Protected(c, e, SettingValue, values[i].0, stored[i], values[i].1)
  }

  /** No later value of the batch has the same key. */
  predicate LastOfKey(values: seq<(string, string)>, i: nat)
    requires i < |values|
  {
    forall k :: i < k < |values| ==> values[k].0 != values[i].0
  }

  lemma LastIsLast(values: seq<(string, string)>)
    requires values != []
    ensures LastOfKey(values, |values| - 1)
  {
  }

  /** Each key of the batch holds its last text, every other row what it held. */
  ghost predicate Written(before: map<string, string>, values: seq<(string, string)>, stored: seq<string>,
                          after: map<string, string>) {
    && |stored| == |values|
    && (forall i :: 0 <= i < |values| ==> values[i].0 in after)
    && (forall i :: 0 <= i < |values| && LastOfKey(values, i) ==> after[values[i].0] == stored[i])
    && (forall key :: key in before && (forall i :: 0 <= i < |values| ==> values[i].0 != key) ==>
          key in after && after[key] == before[key])
  }

  lemma NothingWritten(before: map<string, string>, saved: map<string, string>, values: seq<(string, string)>,
                       stored: seq<string>)
    ensures Written(before, values[..0], stored[..0], before) && Overwritten(saved, values[..0]) == saved
  {
  }

  lemma StandingStep(c: Cipher, rows: map<string, string>, saved: map<string, string>, values: seq<(string, string)>,
                     stored: string)
    requires values != [] && AllStand(c, SettingValue, rows, Overwritten(saved, values[..|values| - 1]))
    requires Stands(c, SettingValue, values[|values| - 1].0, stored, values[|values| - 1].1)
    ensures AllStand(c, SettingValue, rows[values[|values| - 1].0 := stored], Overwritten(saved, values))
  {
    hide Stands;
  }

  lemma WrittenStep(before: map<string, string>, values: seq<(string, string)>, stored: seq<string>,
                    after: map<string, string>)
    requires values != [] && |stored| == |values|
    requires Written(before, values[..|values| - 1], stored[..|values| - 1], after)
    ensures Written(before, values, stored, after[values[|values| - 1].0 := stored[|values| - 1]])
  {
    var last := |values| - 1;
    var now := after[values[last].0 := stored[last]];
    forall i | 0 <= i < |values| ensures values[i].0 in now {
      if i < last { assert values[..last][i].0 in after; }
    }
    forall i | 0 <= i < |values| && LastOfKey(values, i) ensures now[values[i].0] == stored[i] {
      if i < last {
        assert values[last].0 != values[i].0;
        assert LastOfKey(values[..last], i);
      }
    }
    forall key | key in before && (forall i :: 0 <= i < |values| ==> values[i].0 != key)
      ensures key in now && now[key] == before[key]
    {
      assert forall i :: 0 <= i < last ==> values[..last][i].0 != key;
    }
  }

  predicate AllPreserved(c: Cipher, e: Encryptor, col: Column, before: map<string, string>,
                         after: map<string, string>) {
    after.Keys == before.Keys && forall row :: row in after ==> Preserved(c, e, col, row, before[row], after[row])
  }

  predicate NonePending(c: Cipher, e: Encryptor, col: Column, rows: map<string, string>) {
    forall row :: row in rows ==> NotPending(c, e, col, row, rows[row])
  }

  /** The values of a batch over what was saved before, a later one of the same key winning. */
  function Overwritten(saved: map<string, string>, values: seq<(string, string)>): map<string, string> {
    if values == [] then saved
    else
      var last := |values| - 1;
      Overwritten(saved, values[..last])[values[last].0 := values[last].1]
  }
}
