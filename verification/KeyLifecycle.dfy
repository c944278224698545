/**
 The key hierarchy and its lifecycle under ideal cryptography.  KDF, HKDF and AEAD are
 free constructors: two derived keys are equal only when derived from equal inputs, and
 a ciphertext opens exactly under its own key and its own associated data.
 */
module KeyLifecycle {
  import opened Wrappers
  import opened Records
  import opened Aad

  // 32 random bytes, by identity.
  type Dek = nat

  datatype Params = Params(m: nat, t: nat, p: nat)

  const DEFAULT_KDF_PARAMS := Params(65536, 3, 4)

  datatype AesKey =
    | PassKek(pass: string, salt: nat, params: Params)   // Argon2id
    | PhraseKek(phrase: string)                          // BIP39 seed, then HKDF with info "recovery"
    | RecordKey(dek: Dek, kind: Kind)                    // HKDF with info = the record type

  datatype Plain = DekBytes(dek: Dek) | Data(bytes: Bytes)

  datatype Ciphertext = Ciphertext(key: AesKey, nonce: nat, aad: string, plain: Plain)

  datatype CryptoError = WrapFailed | InvalidPhrase | DecryptionFailed

  function Decrypt(key: AesKey, c: Ciphertext, aad: string): Result<Plain, CryptoError> {
    if key == c.key && aad == c.aad then Ok(c.plain) else Err(DecryptionFailed)
  }

  /******* keyHierarchy.ts *******/

  function Wrap(dek: Dek, kek: AesKey, user: UserId, kind: WrapKind, nonce: nat): Result<Ciphertext, CryptoError> {
    if user == "" then Err(WrapFailed) else Ok(Ciphertext(kek, nonce, WrapAad(user, kind), DekBytes(dek)))
  }

  // Wrong key, wrong user, wrong kind or wrong contents all surface as one error.
  function Unwrap(w: Ciphertext, kek: AesKey, user: UserId, kind: WrapKind): Result<Dek, CryptoError> {
    match Decrypt(kek, w, WrapAad(user, kind))
    case Ok(DekBytes(dek)) => Ok(dek)
    case _ => Err(WrapFailed)
  }

  /******* recovery.ts *******/

  // Unicode normalization and the BIP39 word list are parameters.
  datatype Phrases = Phrases(normalize: string -> string, valid: string -> bool)

  function DeriveRecoveryKek(ph: Phrases, mnemonic: string): Result<AesKey, CryptoError> {
    var normalized := ph.normalize(mnemonic);
    if !ph.valid(ph.normalize(normalized)) then Err(InvalidPhrase) else Ok(PhraseKek(normalized))
  }

  function RecoverDek(ph: Phrases, w: Ciphertext, mnemonic: string, user: UserId): Result<Dek, CryptoError> {
    var kek :- DeriveRecoveryKek(ph, mnemonic);
    Unwrap(w, kek, user, WrappedDekRecovery)
  }

  /******* lifecycle.ts *******/

  // The four fields the server stores.
  datatype Account = Account(salt: nat, params: Params, wrappedDek: Ciphertext, wrappedRecovery: Ciphertext)

  function Register(ph: Phrases, user: UserId, pass: string, phrase: string, dek: Dek, salt: nat, n1: nat, n2: nat)
    : Result<Account, CryptoError>
  {
    var wrapped :- Wrap(dek, PassKek(pass, salt, DEFAULT_KDF_PARAMS), user, WrappedDek, n1);
    var kek :- DeriveRecoveryKek(ph, phrase);
    var recovery :- Wrap(dek, kek, user, WrappedDekRecovery, n2);
    Ok(Account(salt, DEFAULT_KDF_PARAMS, wrapped, recovery))
  }

  function Unlock(user: UserId, acc: Account, pass: string): Result<Dek, CryptoError> {
    Unwrap(acc.wrappedDek, PassKek(pass, acc.salt, acc.params), user, WrappedDek)
  }

  // Both wraps are re-issued under the new passphrase's key.
  function ChangePassphrase(user: UserId, acc: Account, oldPass: string, newPass: string, newSalt: nat, n1: nat, n2: nat)
    : Result<Account, CryptoError>
  {
    if newPass == oldPass || newPass == "" then Err(WrapFailed)
    else
      var dek :- Unlock(user, acc, oldPass);
      var newKek := PassKek(newPass, newSalt, DEFAULT_KDF_PARAMS);
      var wrapped :- Wrap(dek, newKek, user, WrappedDek, n1);
      var recovery :- Wrap(dek, newKek, user, WrappedDekRecovery, n2);
      Ok(Account(newSalt, DEFAULT_KDF_PARAMS, wrapped, recovery))
  }

  function RecoverWithMnemonic(ph: Phrases, user: UserId, acc: Account, mnemonic: string): Result<Dek, CryptoError> {
    RecoverDek(ph, acc.wrappedRecovery, mnemonic, user)
  }

  function RotateRecovery(ph: Phrases, user: UserId, acc: Account, oldMnemonic: string, newMnemonic: string, n: nat)
    : Result<Account, CryptoError>
  {
    var dek :- RecoverDek(ph, acc.wrappedRecovery, oldMnemonic, user);
    var newKek :- DeriveRecoveryKek(ph, newMnemonic);
    var recovery :- Wrap(dek, newKek, user, WrappedDekRecovery, n);
    Ok(acc.(wrappedRecovery := recovery))
  }

  /******* Runs *******/

  datatype Op =
    | Change(oldPass: string, newPass: string, salt: nat, n1: nat, n2: nat)
    | Rotate(oldMnemonic: string, newMnemonic: string, n: nat)

  function Attempt(ph: Phrases, user: UserId, acc: Account, op: Op): Result<Account, CryptoError> {
    match op
    case Change(oldPass, newPass, salt, n1, n2) => ChangePassphrase(user, acc, oldPass, newPass, salt, n1, n2)
    case Rotate(oldMnemonic, newMnemonic, n) => RotateRecovery(ph, user, acc, oldMnemonic, newMnemonic, n)
  }

  // A refused operation stores nothing.
  function Run(ph: Phrases, user: UserId, acc: Account, ops: seq<Op>): Account {
    if ops == [] then acc
    else
      var before := Run(ph, user, acc, ops[..|ops| - 1]);
      match Attempt(ph, user, before, ops[|ops| - 1])
      case Ok(after) => after
      case Err(_) => before
  }

  predicate Accepted(ph: Phrases, user: UserId, acc: Account, ops: seq<Op>, i: nat)
    requires i < |ops|
  {
    Attempt(ph, user, Run(ph, user, acc, ops[..i]), ops[i]).Ok?
  }

  // The passphrase of the latest accepted change, or the one of registration.
  function CurrentPass(ph: Phrases, user: UserId, acc: Account, ops: seq<Op>, registered: string): string {
    if ops == [] then registered
    else
      var n := |ops| - 1;
      if ops[n].Change? && Accepted(ph, user, acc, ops, n) then ops[n].newPass
      else CurrentPass(ph, user, acc, ops[..n], registered)
  }

  // The phrase of the latest accepted rotation, or the one of registration.
  function CurrentPhrase(ph: Phrases, user: UserId, acc: Account, ops: seq<Op>, registered: string): string {
    if ops == [] then registered
    else
      var n := |ops| - 1;
      if ops[n].Rotate? && Accepted(ph, user, acc, ops, n) then ops[n].newMnemonic
      else CurrentPhrase(ph, user, acc, ops[..n], registered)
  }

  // This attempt was a passphrase change, and accepted.
  predicate ChangesAt(ph: Phrases, user: UserId, acc: Account, ops: seq<Op>, i: nat)
    requires i < |ops|
  {
    ops[i].Change? && Accepted(ph, user, acc, ops, i)
  }

  // Whether the passphrase was ever changed.
  predicate EverChanged(ph: Phrases, user: UserId, acc: Account, ops: seq<Op>) {
    exists i :: 0 <= i < |ops| && ChangesAt(ph, user, acc, ops, i)
  }

  lemma AcceptedOfPrefix(ph: Phrases, user: UserId, acc: Account, ops: seq<Op>, n: nat, i: nat)
    requires i < n <= |ops|
    ensures Accepted(ph, user, acc, ops[..n], i) == Accepted(ph, user, acc, ops, i)
  {
    assert ops[..n][..i] == ops[..i];
  }

  lemma {:induction false} EverChangedStep(ph: Phrases, user: UserId, acc: Account, ops: seq<Op>)
    requires ops != []
    ensures var n := |ops| - 1;
      EverChanged(ph, user, acc, ops) ==
      (EverChanged(ph, user, acc, ops[..n]) || (ops[n].Change? && Accepted(ph, user, acc, ops, n)))
  {
    var n := |ops| - 1;
    if i :| 0 <= i < n && ChangesAt(ph, user, acc, ops[..n], i) {
      AcceptedOfPrefix(ph, user, acc, ops, n, i);
      assert ChangesAt(ph, user, acc, ops, i);
    }
    if i :| 0 <= i < n && ChangesAt(ph, user, acc, ops, i) {
      AcceptedOfPrefix(ph, user, acc, ops, n, i);
      assert ChangesAt(ph, user, acc, ops[..n], i);
    }
    assert ChangesAt(ph, user, acc, ops, n) <==> ops[n].Change? && Accepted(ph, user, acc, ops, n);
  }

  /******* What every run keeps *******/

  predicate WrapsHold(user: UserId, acc: Account, dek: Dek, pass: string, recovery: AesKey) {
    && acc.wrappedDek.key == PassKek(pass, acc.salt, acc.params)
    && acc.wrappedDek.aad == WrapAad(user, WrappedDek)
    && acc.wrappedDek.plain == DekBytes(dek)
    && acc.wrappedRecovery.key == recovery
    && acc.wrappedRecovery.aad == WrapAad(user, WrappedDekRecovery)
    && acc.wrappedRecovery.plain == DekBytes(dek)
  }

  // The one key that opens the recovery wrap.
  function RecoveryKey(ph: Phrases, user: UserId, acc: Account, ops: seq<Op>, pass: string, phrase: string): AesKey {
    if EverChanged(ph, user, acc, ops)
    then PassKek(CurrentPass(ph, user, acc, ops, pass), Run(ph, user, acc, ops).salt, Run(ph, user, acc, ops).params)
    else PhraseKek(ph.normalize(CurrentPhrase(ph, user, acc, ops, phrase)))
  }

  lemma {:induction false} RunKeepsWraps(ph: Phrases, user: UserId, acc: Account, ops: seq<Op>,
                                         dek: Dek, pass: string, phrase: string)
    requires WrapsHold(user, acc, dek, pass, PhraseKek(ph.normalize(phrase)))
    ensures WrapsHold(user, Run(ph, user, acc, ops), dek, CurrentPass(ph, user, acc, ops, pass),
                      RecoveryKey(ph, user, acc, ops, pass, phrase))
  {
    if ops != [] {
      var n := |ops| - 1;
      RunKeepsWraps(ph, user, acc, ops[..n], dek, pass, phrase);
      EverChangedStep(ph, user, acc, ops);
    }
  }

  lemma RegistrationWraps(ph: Phrases, user: UserId, pass: string, phrase: string, dek: Dek, salt: nat, n1: nat, n2: nat)
    requires Register(ph, user, pass, phrase, dek, salt, n1, n2).Ok?
    ensures WrapsHold(user, Register(ph, user, pass, phrase, dek, salt, n1, n2).value, dek, pass,
                      PhraseKek(ph.normalize(phrase)))
    ensures ph.valid(ph.normalize(ph.normalize(phrase)))
  {
  }

  // Which attempts are accepted, told without running them: a change needs the current
  // passphrase and a new, non-empty one; a rotation needs the current phrase, a valid new
  // one, and an account whose passphrase was never changed.
  lemma AcceptedIff(ph: Phrases, user: UserId, pass: string, phrase: string, dek: Dek, salt: nat, n1: nat, n2: nat,
                    ops: seq<Op>, op: Op)
    requires Register(ph, user, pass, phrase, dek, salt, n1, n2).Ok?
    ensures var acc := Register(ph, user, pass, phrase, dek, salt, n1, n2).value;
      Attempt(ph, user, Run(ph, user, acc, ops), op).Ok? ==
      match op {
        case Change(oldPass, newPass, _, _, _) =>
          oldPass == CurrentPass(ph, user, acc, ops, pass) && newPass != oldPass && newPass != ""
        case Rotate(oldMnemonic, newMnemonic, _) =>
          && !EverChanged(ph, user, acc, ops)
          && ph.normalize(oldMnemonic) == ph.normalize(CurrentPhrase(ph, user, acc, ops, phrase))
          && ph.valid(ph.normalize(ph.normalize(newMnemonic)))
      }
  {
    var acc := Register(ph, user, pass, phrase, dek, salt, n1, n2).value;
    RegistrationWraps(ph, user, pass, phrase, dek, salt, n1, n2);
    RunKeepsWraps(ph, user, acc, ops, dek, pass, phrase);
    CurrentPhraseIsValid(ph, user, acc, ops, phrase);
    if op.Rotate? {
      RecoverReads(ph, user, Run(ph, user, acc, ops), dek, CurrentPass(ph, user, acc, ops, pass),
                   RecoveryKey(ph, user, acc, ops, pass, phrase), op.oldMnemonic);
    }
  }

  // Over any sequence of attempts, the current passphrase and no other unlocks the
  // account, to the DEK made at registration; what was encrypted under that DEK's
  // subkeys at any earlier point still opens.
  lemma PassphraseAloneUnlocks(ph: Phrases, user: UserId, pass: string, phrase: string, dek: Dek, salt: nat,
                               n1: nat, n2: nat, ops: seq<Op>, attempt: string, record: Ciphertext, kind: Kind)
    requires Register(ph, user, pass, phrase, dek, salt, n1, n2).Ok?
    requires record.key == RecordKey(dek, kind)
    ensures var acc := Register(ph, user, pass, phrase, dek, salt, n1, n2).value;
      var unlocked := Unlock(user, Run(ph, user, acc, ops), attempt);
      && (unlocked == if attempt == CurrentPass(ph, user, acc, ops, pass) then Ok(dek) else Err(WrapFailed))
      && (unlocked.Ok? ==> Decrypt(RecordKey(unlocked.value, kind), record, record.aad) == Ok(record.plain))
  {
    var acc := Register(ph, user, pass, phrase, dek, salt, n1, n2).value;
    RegistrationWraps(ph, user, pass, phrase, dek, salt, n1, n2);
    RunKeepsWraps(ph, user, acc, ops, dek, pass, phrase);
  }

  // The recovery wrap opens to the registration DEK under exactly one key: the latest
  // phrase's, or, once the passphrase has been changed, the passphrase's own.
  lemma {:induction false} RecoveryWrapHasOneKey(ph: Phrases, user: UserId, pass: string, phrase: string, dek: Dek, salt: nat,
                              n1: nat, n2: nat, ops: seq<Op>, key: AesKey)
    requires Register(ph, user, pass, phrase, dek, salt, n1, n2).Ok?
    ensures var acc := Register(ph, user, pass, phrase, dek, salt, n1, n2).value;
      Unwrap(Run(ph, user, acc, ops).wrappedRecovery, key, user, WrappedDekRecovery) ==
      if key == RecoveryKey(ph, user, acc, ops, pass, phrase) then Ok(dek) else Err(WrapFailed)
  {
    var acc := Register(ph, user, pass, phrase, dek, salt, n1, n2).value;
    RegistrationWraps(ph, user, pass, phrase, dek, salt, n1, n2);
    RunKeepsWraps(ph, user, acc, ops, dek, pass, phrase);
  }

  lemma {:induction false} CurrentPhraseIsValid(ph: Phrases, user: UserId, acc: Account, ops: seq<Op>, phrase: string)
    requires ph.valid(ph.normalize(ph.normalize(phrase)))
    ensures ph.valid(ph.normalize(ph.normalize(CurrentPhrase(ph, user, acc, ops, phrase))))
  {
    if ops != [] {
      CurrentPhraseIsValid(ph, user, acc, ops[..|ops| - 1], phrase);
    }
  }

  // Recovering depends on the account through the recovery wrap's key alone.
  lemma RecoverReads(ph: Phrases, user: UserId, acc: Account, dek: Dek, pass: string, key: AesKey, mnemonic: string)
    requires WrapsHold(user, acc, dek, pass, key)
    ensures RecoverWithMnemonic(ph, user, acc, mnemonic) ==
            if !ph.valid(ph.normalize(ph.normalize(mnemonic))) then Err(InvalidPhrase)
            else if key == PhraseKek(ph.normalize(mnemonic)) then Ok(dek) else Err(WrapFailed)
  {
  }

  // The documented promise, that the phrase recovers the DEK, holds exactly on the runs
  // without a passphrase change.
  lemma {:induction false} PhraseRecoversIffNeverChanged(ph: Phrases, user: UserId, pass: string, phrase: string, dek: Dek, salt: nat,
                                      n1: nat, n2: nat, ops: seq<Op>)
    requires Register(ph, user, pass, phrase, dek, salt, n1, n2).Ok?
    ensures var acc := Register(ph, user, pass, phrase, dek, salt, n1, n2).value;
      var recovered := RecoverWithMnemonic(ph, user, Run(ph, user, acc, ops), CurrentPhrase(ph, user, acc, ops, phrase));
      recovered == if EverChanged(ph, user, acc, ops) then Err(WrapFailed) else Ok(dek)
  {
    var acc := Register(ph, user, pass, phrase, dek, salt, n1, n2).value;
    RegistrationWraps(ph, user, pass, phrase, dek, salt, n1, n2);
    RunKeepsWraps(ph, user, acc, ops, dek, pass, phrase);
    CurrentPhraseIsValid(ph, user, acc, ops, phrase);
    RecoverReads(ph, user, Run(ph, user, acc, ops), dek, CurrentPass(ph, user, acc, ops, pass),
                 RecoveryKey(ph, user, acc, ops, pass, phrase), CurrentPhrase(ph, user, acc, ops, phrase));
  }

  // After a passphrase change no phrase at all recovers, and no rotation is accepted.
  lemma ChangedAccountRefusesEveryPhrase(ph: Phrases, user: UserId, pass: string, phrase: string, dek: Dek, salt: nat,
                                         n1: nat, n2: nat, ops: seq<Op>, mnemonic: string, newMnemonic: string, n: nat)
    requires Register(ph, user, pass, phrase, dek, salt, n1, n2).Ok?
    requires EverChanged(ph, user, Register(ph, user, pass, phrase, dek, salt, n1, n2).value, ops)
    ensures var now := Run(ph, user, Register(ph, user, pass, phrase, dek, salt, n1, n2).value, ops);
      && RecoverWithMnemonic(ph, user, now, mnemonic).Err?
      && RotateRecovery(ph, user, now, mnemonic, newMnemonic, n).Err?
  {
    var acc := Register(ph, user, pass, phrase, dek, salt, n1, n2).value;
    RegistrationWraps(ph, user, pass, phrase, dek, salt, n1, n2);
    RunKeepsWraps(ph, user, acc, ops, dek, pass, phrase);
    RecoverReads(ph, user, Run(ph, user, acc, ops), dek, CurrentPass(ph, user, acc, ops, pass),
                 RecoveryKey(ph, user, acc, ops, pass, phrase), mnemonic);
  }

  /******* Ciphertexts open only as what they were made for *******/

  lemma RecordOpensOnlyAsItself(key: AesKey, nonce: nat, data: Bytes, u: UserId, k: Kind, id: RecordId,
                                key': AesKey, u': UserId, k': Kind, id': RecordId)
    requires BarFree(u) && BarFree(id) && BarFree(u') && BarFree(id')
    ensures Decrypt(key', Ciphertext(key, nonce, BuildAad(u, KindName(k), id), Data(data)), BuildAad(u', KindName(k'), id')).Ok?
            <==> key' == key && u' == u && k' == k && id' == id
  {
    if BuildAad(u, KindName(k), id) == BuildAad(u', KindName(k'), id') {
      AadIsInjective(u, k, id, u', k', id');
    }
  }

  lemma WrapOpensOnlyAsItself(dek: Dek, kek: AesKey, user: UserId, kind: WrapKind, nonce: nat,
                              kek': AesKey, user': UserId, kind': WrapKind)
    requires Wrap(dek, kek, user, kind, nonce).Ok?
    ensures Unwrap(Wrap(dek, kek, user, kind, nonce).value, kek', user', kind') ==
            if kek' == kek && user' == user && kind' == kind then Ok(dek) else Err(WrapFailed)
  {
    WrapAadsAreDistinct(user, kind, user', kind');
  }

  // Neither opens as the other, whatever keys are tried.
  lemma RecordsAndWrapsNeverMix(c: Ciphertext, key: AesKey, u: UserId, k: Kind, id: RecordId, w: UserId, wrap: WrapKind)
    requires BarFree(id) && BarFree(w)
    ensures c.aad == BuildAad(u, KindName(k), id) ==> Unwrap(c, key, w, wrap).Err?
    ensures c.aad == WrapAad(w, wrap) ==> Decrypt(key, c, BuildAad(u, KindName(k), id)).Err?
  {
    RecordAadIsNeverWrapAad(u, k, id, w, wrap);
  }
}
