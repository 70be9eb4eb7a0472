/**
 Moving stored secrets from one AES key to another, row by row, over an abstract authenticated
 cipher. A run can stop at any row; running it again finishes the job.
 */
module KeyRotation {
  import opened Collections

  /** The AES key itself. Keys are stored as hexadecimal text, and several texts can spell one key. */
  type Key = seq<nat>

  /** `keyOf` is the key a text spells, if AES accepts it. Encryption draws a nonce; decryption fails on a malformed text or the wrong key. */
  datatype Cipher = Cipher(
    keyOf: string -> Option<Key>,
    encrypt: (string, Key, nat) -> string,
    decrypt: (string, Key) -> Option<string>) {

    predicate ValidKey(key: string) { keyOf(key).Some? }
  }

  ghost predicate SoundCipher(c: Cipher) {
    && (forall p, k, n :: c.encrypt(p, k, n) != "" && c.decrypt(c.encrypt(p, k, n), k) == Some(p))
    && (forall p, k, n, other :: other != k ==> c.decrypt(c.encrypt(p, k, n), other) == None)
  }

  function Encrypt(c: Cipher, plain: string, key: string, nonce: nat): string
    requires c.ValidKey(key)
  {
    c.encrypt(plain, c.keyOf(key).value, nonce)
  }

  function Decrypt(c: Cipher, text: string, key: string): Option<string> {
    if c.ValidKey(key) then c.decrypt(text, c.keyOf(key).value) else None
  }

  function DecryptSafe(c: Cipher, text: string, key: string): Option<string> {
    if text == "" then None else Decrypt(c, text, key)
  }

  /** What a well-formed key encrypts it reads back, and no other key does. */
  lemma EncryptedReads(c: Cipher, plain: string, key: string, nonce: nat, reader: string)
    requires SoundCipher(c) && c.ValidKey(key)
    ensures DecryptSafe(c, Encrypt(c, plain, key, nonce), reader) == if c.keyOf(reader) == c.keyOf(key) then Some(plain) else None
    ensures DecryptSafe(c, "", reader) == None
  {
  }

  /** None leaves the stored value alone; a panic of Encrypt under a malformed key ends here too. */
  function ReEncrypt(c: Cipher, text: string, oldKey: string, newKey: string, nonce: nat): Option<string> {
    if text == "" then None
    else
      match Decrypt(c, text, oldKey)
      case None => None
      case Some(plain) => if c.ValidKey(newKey) then Some(Encrypt(c, plain, newKey, nonce)) else None
  }

  /** The value read under the old key before is what the new key reads after. */
  ghost predicate Moved(c: Cipher, oldKey: string, newKey: string, before: string, after: string) {
    c.ValidKey(newKey) && exists plain, nonce :: DecryptSafe(c, before, oldKey) == Some(plain) && after == Encrypt(c, plain, newKey, nonce)
  }

  /** A cell after any part of a rotation. */
  ghost predicate Kept(c: Cipher, oldKey: string, newKey: string, before: string, after: string) {
    after == before || Moved(c, oldKey, newKey, before, after)
  }

  /** A cell after a whole rotation: moved if the old key reads it, untouched otherwise. */
  ghost predicate Rotated(c: Cipher, oldKey: string, newKey: string, before: string, after: string) {
    if DecryptSafe(c, before, oldKey).Some? then Moved(c, oldKey, newKey, before, after) else after == before
  }

  /** How the replicated write of one row ends; an unacknowledged one was applied although the call reports an error. */
  datatype WriteOutcome = Acknowledged | Unacknowledged | Refused

  lemma CellRotated(c: Cipher, text: string, oldKey: string, newKey: string, nonce: nat)
    ensures var r := ReEncrypt(c, text, oldKey, newKey, nonce);
            && (r.Some? <==> c.ValidKey(newKey) && DecryptSafe(c, text, oldKey).Some?)
            && (c.ValidKey(newKey) ==> Rotated(c, oldKey, newKey, text, if r.Some? then r.value else text))
            && (r.Some? ==> r.value == c.encrypt(c.decrypt(text, c.keyOf(oldKey).value).value, c.keyOf(newKey).value, nonce))
  {
  }

  /** A cell after one call of ReEncrypt. */
  function Renewed(c: Cipher, text: string, oldKey: string, newKey: string, nonce: nat): string {
    match ReEncrypt(c, text, oldKey, newKey, nonce)
    case None => text
    case Some(renewed) => renewed
  }

  class CredentialRepo {
    const cipher: Cipher
    /** The apiSecret column; a row's id is its position. */
    var secrets: seq<string>

    constructor (cipher: Cipher, secrets: seq<string>)
      ensures this.cipher == cipher && this.secrets == secrets
    {
      this.cipher, this.secrets := cipher, secrets;
    }

    method ReEncryptSecrets(oldKey: string, newKey: string, nonce: nat -> nat, writes: nat -> WriteOutcome)
      returns (rotated: nat, ok: bool)
      modifies this
      ensures |secrets| == |old(secrets)|
      ensures !cipher.ValidKey(newKey) ==> ok && rotated == 0 && secrets == old(secrets)
      ensures forall i :: 0 <= i < |secrets| ==> Kept(cipher, oldKey, newKey, old(secrets)[i], secrets[i])
      ensures ok && cipher.ValidKey(newKey) ==>
                && rotated == CountReadable(cipher, oldKey, old(secrets))
                && forall i :: 0 <= i < |secrets| ==> Rotated(cipher, oldKey, newKey, old(secrets)[i], secrets[i])
      ensures (forall i :: writes(i) == Acknowledged) ==> ok
      ensures ok ==> forall i :: 0 <= i < |secrets| ==> secrets[i] == Renewed(cipher, old(secrets)[i], oldKey, newKey, nonce(i))
    {
      var pending := secrets;
      rotated := 0;
      var i := 0;
      while i < |pending|
        invariant 0 <= i <= |pending| && |secrets| == |pending| && pending == old(secrets)
        invariant !cipher.ValidKey(newKey) ==> rotated == 0 && secrets == pending
        invariant cipher.ValidKey(newKey) ==>
                    && rotated == CountReadable(cipher, oldKey, pending[..i])
                    && forall j :: 0 <= j < i ==> Rotated(cipher, oldKey, newKey, pending[j], secrets[j])
        invariant forall j :: i <= j < |pending| ==> secrets[j] == pending[j]
        invariant forall j :: 0 <= j < i ==> secrets[j] == Renewed(cipher, pending[j], oldKey, newKey, nonce(j))
      {
        CellRotated(cipher, pending[i], oldKey, newKey, nonce(i));
        assert pending[..i + 1][..i] == pending[..i];
        var newCipher := ReEncrypt(cipher, pending[i], oldKey, newKey, nonce(i));
        if newCipher.Some? {
          if writes(i) != Refused {
            secrets := secrets[i := newCipher.value];
          }
          if writes(i) != Acknowledged {
            return rotated, false;
          }
          rotated := rotated + 1;
        }
        i := i + 1;
      }
      assert pending[..i] == pending;
      ok := true;
    }
  }

  function CountReadable(c: Cipher, oldKey: string, texts: seq<string>): nat {
    if texts == [] then 0
    else
      CountReadable(c, oldKey, texts[..|texts| - 1])
      + if DecryptSafe(c, texts[|texts| - 1], oldKey).Some? then 1 else 0
  }

  /** Each text counts by itself, and for one exactly if the cipher decrypts it. */
  lemma {:induction false} CountsReadable(c: Cipher, key: string, a: seq<string>, text: string, b: seq<string>)
    ensures CountReadable(c, key, a + b) == CountReadable(c, key, a) + CountReadable(c, key, b)
    ensures CountReadable(c, key, [text])
            == if text != "" && c.keyOf(key).Some? && c.decrypt(text, c.keyOf(key).value).Some? then 1 else 0
    decreases |b|
  {
    assert [text][..0] == [];
    if b == [] {
      assert a + b == a;
    } else {
      CountsReadable(c, key, a, text, b[..|b| - 1]);
      assert (a + b)[..|a + b| - 1] == a + b[..|b| - 1];
    }
  }

  /** The five provider secrets of an account's AI settings. */
  datatype Settings = Settings(openAI: string, anthropic: string, bedrockAccess: string, bedrockSecret: string, openRouter: string)

  function Cells(s: Settings): seq<string> {
    [s.openAI, s.anthropic, s.bedrockAccess, s.bedrockSecret, s.openRouter]
  }

  ghost predicate RowKept(c: Cipher, oldKey: string, newKey: string, before: Settings, after: Settings) {
    forall k :: 0 <= k < 5 ==> Kept(c, oldKey, newKey, Cells(before)[k], Cells(after)[k])
  }

  ghost predicate RowRotated(c: Cipher, oldKey: string, newKey: string, before: Settings, after: Settings) {
    forall k :: 0 <= k < 5 ==> Rotated(c, oldKey, newKey, Cells(before)[k], Cells(after)[k])
  }

  ghost predicate RowReadable(c: Cipher, oldKey: string, row: Settings) {
    exists k :: 0 <= k < 5 && DecryptSafe(c, Cells(row)[k], oldKey).Some?
  }

  ghost function ReadableRows(c: Cipher, oldKey: string, rows: seq<Settings>): nat {
    if rows == [] then 0
    else ReadableRows(c, oldKey, rows[..|rows| - 1]) + if RowReadable(c, oldKey, rows[|rows| - 1]) then 1 else 0
  }

  /** The same for rows: one counts exactly if the cipher decrypts one of its columns. */
  lemma {:induction false} CountsReadableRows(c: Cipher, key: string, a: seq<Settings>, row: Settings, b: seq<Settings>)
    ensures ReadableRows(c, key, a + b) == ReadableRows(c, key, a) + ReadableRows(c, key, b)
    ensures ReadableRows(c, key, [row]) == 1 <==>
              c.keyOf(key).Some? && exists k :: 0 <= k < 5 && Cells(row)[k] != "" && c.decrypt(Cells(row)[k], c.keyOf(key).value).Some?
    ensures ReadableRows(c, key, [row]) <= 1
    decreases |b|
  {
    assert [row][..0] == [];
    if b == [] {
      assert a + b == a;
    } else {
      CountsReadableRows(c, key, a, row, b[..|b| - 1]);
      assert (a + b)[..|a + b| - 1] == a + b[..|b| - 1];
    }
  }

  /** Column by column, a row is rotated; and some column was readable exactly if some call of ReEncrypt succeeded. */
  lemma RowDone(c: Cipher, before: Settings, after: Settings, oldKey: string, newKey: string, nonce: nat -> nat)
    requires forall k :: 0 <= k < 5 ==> Cells(after)[k] == Renewed(c, Cells(before)[k], oldKey, newKey, nonce(k))
    ensures c.ValidKey(newKey) ==> RowRotated(c, oldKey, newKey, before, after)
    ensures c.ValidKey(newKey) && RowReadable(c, oldKey, before) <==>
              exists k :: 0 <= k < 5 && ReEncrypt(c, Cells(before)[k], oldKey, newKey, nonce(k)).Some?
  {
    forall k | 0 <= k < 5
      ensures ReEncrypt(c, Cells(before)[k], oldKey, newKey, nonce(k)).Some? <==> c.ValidKey(newKey) && DecryptSafe(c, Cells(before)[k], oldKey).Some?
      ensures c.ValidKey(newKey) ==> Rotated(c, oldKey, newKey, Cells(before)[k], Cells(after)[k])
    {
      CellRotated(c, Cells(before)[k], oldKey, newKey, nonce(k));
    }
  }

  /** Row i after a run, column by column. */
  ghost predicate RowRenewed(c: Cipher, oldKey: string, newKey: string, before: Settings, after: Settings, nonce: (nat, nat) -> nat, i: nat) {
    forall k: nat :: k < 5 ==> Cells(after)[k] == Renewed(c, Cells(before)[k], oldKey, newKey, nonce(i, k))
  }

  class AISettingsRepo {
    const cipher: Cipher
    var rows: seq<Settings>

    constructor (cipher: Cipher, rows: seq<Settings>)
      ensures this.cipher == cipher && this.rows == rows
    {
      this.cipher, this.rows := cipher, rows;
    }

    /** The update of one row: each column that the old key reads is set to its new cipher text. */
    method UpdatedRow(rw: Settings, oldKey: string, newKey: string, nonce: nat -> nat) returns (updated: Settings, changed: bool)
      ensures !cipher.ValidKey(newKey) ==> updated == rw && !changed
      ensures forall k :: 0 <= k < 5 ==> Cells(updated)[k] == Renewed(cipher, Cells(rw)[k], oldKey, newKey, nonce(k))
      ensures cipher.ValidKey(newKey) ==> RowRotated(cipher, oldKey, newKey, rw, updated) && (changed <==> RowReadable(cipher, oldKey, rw))
    {
      updated, changed := rw, false;
      var newCipher := ReEncrypt(cipher, rw.openAI, oldKey, newKey, nonce(0));
      if newCipher.Some? {
        updated, changed := updated.(openAI := newCipher.value), true;
      }
      newCipher := ReEncrypt(cipher, rw.anthropic, oldKey, newKey, nonce(1));
      if newCipher.Some? {
        updated, changed := updated.(anthropic := newCipher.value), true;
      }
      newCipher := ReEncrypt(cipher, rw.bedrockAccess, oldKey, newKey, nonce(2));
      if newCipher.Some? {
        updated, changed := updated.(bedrockAccess := newCipher.value), true;
      }
      newCipher := ReEncrypt(cipher, rw.bedrockSecret, oldKey, newKey, nonce(3));
      if newCipher.Some? {
        updated, changed := updated.(bedrockSecret := newCipher.value), true;
      }
      newCipher := ReEncrypt(cipher, rw.openRouter, oldKey, newKey, nonce(4));
      if newCipher.Some? {
        updated, changed := updated.(openRouter := newCipher.value), true;
      }
      RowDone(cipher, rw, updated, oldKey, newKey, nonce);
    }

    method ReEncryptSecrets(oldKey: string, newKey: string, nonce: (nat, nat) -> nat, writes: nat -> WriteOutcome)
      returns (rotated: nat, ok: bool)
      modifies this
      ensures |rows| == |old(rows)|
      ensures !cipher.ValidKey(newKey) ==> ok && rotated == 0 && rows == old(rows)
      ensures forall i :: 0 <= i < |rows| ==> RowKept(cipher, oldKey, newKey, old(rows)[i], rows[i])
      ensures ok && cipher.ValidKey(newKey) ==>
                && (forall i :: 0 <= i < |rows| ==> RowRotated(cipher, oldKey, newKey, old(rows)[i], rows[i]))
                && rotated == ReadableRows(cipher, oldKey, old(rows))
      ensures (forall i :: writes(i) == Acknowledged) ==> ok
      ensures ok ==> forall i :: 0 <= i < |rows| ==> RowRenewed(cipher, oldKey, newKey, old(rows)[i], rows[i], nonce, i)
    {
      var pending := rows;
      rotated := 0;
      var i := 0;
      while i < |pending|
        invariant 0 <= i <= |pending| && |rows| == |pending| && pending == old(rows)
        invariant !cipher.ValidKey(newKey) ==> rotated == 0 && rows == pending
        invariant cipher.ValidKey(newKey) ==>
                    && (forall j :: 0 <= j < i ==> RowRotated(cipher, oldKey, newKey, pending[j], rows[j]))
                    && rotated == ReadableRows(cipher, oldKey, pending[..i])
        invariant forall j :: i <= j < |pending| ==> rows[j] == pending[j]
        invariant forall j :: 0 <= j < i ==> RowRenewed(cipher, oldKey, newKey, pending[j], rows[j], nonce, j)
      {
        assert pending[..i + 1][..i] == pending[..i];
        var updated, changed := UpdatedRow(pending[i], oldKey, newKey, k => nonce(i, k));
        assert RowRenewed(cipher, oldKey, newKey, pending[i], updated, nonce, i);
        if changed {
          if writes(i) != Refused {
            rows := rows[i := updated];
          }
          if writes(i) != Acknowledged {
            return rotated, false;
          }
          rotated := rotated + 1;
        } else if cipher.ValidKey(newKey) {
          UnreadableRow(cipher, oldKey, newKey, pending[i], updated);
        }
        i := i + 1;
      }
      assert pending[..i] == pending;
      ok := true;
    }
  }

  lemma UnreadableRow(c: Cipher, oldKey: string, newKey: string, before: Settings, after: Settings)
    requires !RowReadable(c, oldKey, before) && RowRotated(c, oldKey, newKey, before, after)
    ensures after == before
  {
    forall k | 0 <= k < 5 ensures Cells(after)[k] == Cells(before)[k] {
      assert !DecryptSafe(c, Cells(before)[k], oldKey).Some?;
      assert Rotated(c, oldKey, newKey, Cells(before)[k], Cells(after)[k]);
    }
    assert Cells(after)[0] == Cells(before)[0] && Cells(after)[1] == Cells(before)[1] && Cells(after)[2] == Cells(before)[2];
    assert Cells(after)[3] == Cells(before)[3] && Cells(after)[4] == Cells(before)[4];
  }

  /** Resuming: part of a rotation followed by a whole one is a whole one. */
  lemma Resumes(c: Cipher, oldKey: string, newKey: string, before: string, between: string, after: string)
    requires SoundCipher(c) && c.ValidKey(newKey)
    requires Kept(c, oldKey, newKey, before, between) && Rotated(c, oldKey, newKey, between, after)
    ensures Rotated(c, oldKey, newKey, before, after)
  {
    if between != before {
      var plain, nonce :| DecryptSafe(c, before, oldKey) == Some(plain) && between == Encrypt(c, plain, newKey, nonce);
      if c.keyOf(oldKey) == c.keyOf(newKey) {
        assert DecryptSafe(c, between, oldKey) == Some(plain);
      } else {
        assert DecryptSafe(c, between, oldKey) == None;
      }
    }
  }

  /** The same for a row of settings, column by column. */
  lemma RowResumes(c: Cipher, oldKey: string, newKey: string, before: Settings, between: Settings, after: Settings)
    requires SoundCipher(c) && c.ValidKey(newKey)
    requires RowKept(c, oldKey, newKey, before, between) && RowRotated(c, oldKey, newKey, between, after)
    ensures RowRotated(c, oldKey, newKey, before, after)
  {
    forall k | 0 <= k < 5 ensures Rotated(c, oldKey, newKey, Cells(before)[k], Cells(after)[k]) {
      assert Kept(c, oldKey, newKey, Cells(before)[k], Cells(between)[k]);
      assert Rotated(c, oldKey, newKey, Cells(between)[k], Cells(after)[k]);
      Resumes(c, oldKey, newKey, Cells(before)[k], Cells(between)[k], Cells(after)[k]);
    }
  }

  /** By the cipher itself: what the old key decrypts before, the new key decrypts after, and anything else is untouched. */
  ghost predicate ReadsOn(c: Cipher, oldKey: string, newKey: string, before: string, after: string) {
    if before != "" && c.keyOf(oldKey).Some? && c.decrypt(before, c.keyOf(oldKey).value).Some?
    then after != "" && c.keyOf(newKey).Some? && c.decrypt(after, c.keyOf(newKey).value) == c.decrypt(before, c.keyOf(oldKey).value)
    else after == before
  }

  /**
   A whole rotation preserves meaning: what the old key read, the new key reads, and nothing else
   changed. The old key still reads a value exactly if it read it before and is the same AES key.
   */
  lemma MeaningPreserved(c: Cipher, oldKey: string, newKey: string, before: string, after: string)
    requires SoundCipher(c) && c.ValidKey(newKey) && Rotated(c, oldKey, newKey, before, after)
    ensures ReadsOn(c, oldKey, newKey, before, after)
    ensures DecryptSafe(c, after, oldKey).Some? <==> DecryptSafe(c, before, oldKey).Some? && c.keyOf(oldKey) == c.keyOf(newKey)
  {
  }

  /**
   What a further run finds: nothing, unless the two texts spell one AES key; then every secret that
   was readable is readable again, and is rotated again by each run.
   */
  lemma {:induction false} FurtherRun(c: Cipher, oldKey: string, newKey: string, before: seq<string>, after: seq<string>)
    requires SoundCipher(c) && c.ValidKey(newKey) && |before| == |after|
    requires forall i :: 0 <= i < |after| ==> Rotated(c, oldKey, newKey, before[i], after[i])
    ensures CountReadable(c, oldKey, after) == if c.keyOf(oldKey) == c.keyOf(newKey) then CountReadable(c, oldKey, before) else 0
  {
    if after != [] {
      var n := |after| - 1;
      assert Rotated(c, oldKey, newKey, before[n], after[n]);
      MeaningPreserved(c, oldKey, newKey, before[n], after[n]);
      FurtherRun(c, oldKey, newKey, before[..n], after[..n]);
    }
  }

  /** The same for rows of settings. */
  lemma {:induction false} FurtherRowRun(c: Cipher, oldKey: string, newKey: string, before: seq<Settings>, after: seq<Settings>)
    requires SoundCipher(c) && c.ValidKey(newKey) && |before| == |after|
    requires forall i :: 0 <= i < |after| ==> RowRotated(c, oldKey, newKey, before[i], after[i])
    ensures ReadableRows(c, oldKey, after) == if c.keyOf(oldKey) == c.keyOf(newKey) then ReadableRows(c, oldKey, before) else 0
  {
    if after != [] {
      var n := |after| - 1;
      RowReadableAfter(c, oldKey, newKey, before[n], after[n]);
      FurtherRowRun(c, oldKey, newKey, before[..n], after[..n]);
    }
  }

  lemma RowReadableAfter(c: Cipher, oldKey: string, newKey: string, before: Settings, after: Settings)
    requires SoundCipher(c) && c.ValidKey(newKey) && RowRotated(c, oldKey, newKey, before, after)
    ensures RowReadable(c, oldKey, after) <==> RowReadable(c, oldKey, before) && c.keyOf(oldKey) == c.keyOf(newKey)
  {
    forall k | 0 <= k < 5
      ensures DecryptSafe(c, Cells(after)[k], oldKey).Some? <==> DecryptSafe(c, Cells(before)[k], oldKey).Some? && c.keyOf(oldKey) == c.keyOf(newKey)
    {
      assert Rotated(c, oldKey, newKey, Cells(before)[k], Cells(after)[k]);
      MeaningPreserved(c, oldKey, newKey, Cells(before)[k], Cells(after)[k]);
    }
  }

  /**
   Any number of runs that stop wherever they like, then a complete one and a further one: every
   secret reads as it did, and the further one finds nothing, unless the texts spell one key.
   */
  method RotateInterrupted(repo: CredentialRepo, oldKey: string, newKey: string, nonces: (nat, nat) -> nat,
                           stops: seq<nat -> WriteOutcome>) returns (again: nat)
    requires SoundCipher(repo.cipher) && repo.cipher.ValidKey(newKey)
    modifies repo
    ensures |repo.secrets| == |old(repo.secrets)|
    ensures again == if repo.cipher.keyOf(oldKey) == repo.cipher.keyOf(newKey) then CountReadable(repo.cipher, oldKey, old(repo.secrets)) else 0
    ensures forall i :: 0 <= i < |repo.secrets| ==> ReadsOn(repo.cipher, oldKey, newKey, old(repo.secrets)[i], repo.secrets[i])
  {
    var k := 0;
    while k < |stops|
      invariant 0 <= k <= |stops| && |repo.secrets| == |old(repo.secrets)|
      invariant forall i :: 0 <= i < |repo.secrets| ==> Kept(repo.cipher, oldKey, newKey, old(repo.secrets)[i], repo.secrets[i])
    {
      ghost var between := repo.secrets;
      var rotated, ok := repo.ReEncryptSecrets(oldKey, newKey, i => nonces(k, i), stops[k]);
      forall i | 0 <= i < |between| ensures Kept(repo.cipher, oldKey, newKey, old(repo.secrets)[i], repo.secrets[i]) {
        KeptTwice(repo.cipher, oldKey, newKey, old(repo.secrets)[i], between[i], repo.secrets[i]);
      }
      k := k + 1;
    }
    ghost var between := repo.secrets;
    var rotated, ok := repo.ReEncryptSecrets(oldKey, newKey, i => nonces(k, i), i => Acknowledged);
    ghost var done := repo.secrets;
    forall i | 0 <= i < |between| ensures Rotated(repo.cipher, oldKey, newKey, old(repo.secrets)[i], done[i]) {
      Resumes(repo.cipher, oldKey, newKey, old(repo.secrets)[i], between[i], done[i]);
    }
    FurtherRun(repo.cipher, oldKey, newKey, old(repo.secrets), done);
    again, ok := repo.ReEncryptSecrets(oldKey, newKey, i => nonces(k + 1, i), i => Acknowledged);
    forall i | 0 <= i < |done| ensures ReadsOn(repo.cipher, oldKey, newKey, old(repo.secrets)[i], repo.secrets[i]) {
      Resumes(repo.cipher, oldKey, newKey, old(repo.secrets)[i], done[i], repo.secrets[i]);
      MeaningPreserved(repo.cipher, oldKey, newKey, old(repo.secrets)[i], repo.secrets[i]);
    }
  }

  ghost predicate RowReadsOn(c: Cipher, oldKey: string, newKey: string, before: Settings, after: Settings) {
    forall k :: 0 <= k < 5 ==> ReadsOn(c, oldKey, newKey, Cells(before)[k], Cells(after)[k])
  }

  /** The same for the AI settings. */
  method RotateSettingsInterrupted(repo: AISettingsRepo, oldKey: string, newKey: string, nonces: (nat, nat, nat) -> nat,
                                   stops: seq<nat -> WriteOutcome>) returns (again: nat)
    requires SoundCipher(repo.cipher) && repo.cipher.ValidKey(newKey)
    modifies repo
    ensures |repo.rows| == |old(repo.rows)|
    ensures again == if repo.cipher.keyOf(oldKey) == repo.cipher.keyOf(newKey) then ReadableRows(repo.cipher, oldKey, old(repo.rows)) else 0
    ensures forall i :: 0 <= i < |repo.rows| ==> RowReadsOn(repo.cipher, oldKey, newKey, old(repo.rows)[i], repo.rows[i])
  {
    var k := 0;
    while k < |stops|
      invariant 0 <= k <= |stops| && |repo.rows| == |old(repo.rows)|
      invariant forall i :: 0 <= i < |repo.rows| ==> RowKept(repo.cipher, oldKey, newKey, old(repo.rows)[i], repo.rows[i])
    {
      ghost var between := repo.rows;
      var rotated, ok := repo.ReEncryptSecrets(oldKey, newKey, (i, j) => nonces(k, i, j), stops[k]);
      forall i | 0 <= i < |between| ensures RowKept(repo.cipher, oldKey, newKey, old(repo.rows)[i], repo.rows[i]) {
        RowKeptTwice(repo.cipher, oldKey, newKey, old(repo.rows)[i], between[i], repo.rows[i]);
      }
      k := k + 1;
    }
    ghost var between := repo.rows;
    var rotated, ok := repo.ReEncryptSecrets(oldKey, newKey, (i, j) => nonces(k, i, j), i => Acknowledged);
    ghost var done := repo.rows;
    forall i | 0 <= i < |between| ensures RowRotated(repo.cipher, oldKey, newKey, old(repo.rows)[i], done[i]) {
      RowResumes(repo.cipher, oldKey, newKey, old(repo.rows)[i], between[i], done[i]);
    }
    FurtherRowRun(repo.cipher, oldKey, newKey, old(repo.rows), done);
    again, ok := repo.ReEncryptSecrets(oldKey, newKey, (i, j) => nonces(k + 1, i, j), i => Acknowledged);
    forall i | 0 <= i < |done| ensures RowReadsOn(repo.cipher, oldKey, newKey, old(repo.rows)[i], repo.rows[i]) {
      RowReads(repo.cipher, oldKey, newKey, old(repo.rows)[i], done[i], repo.rows[i]);
    }
  }

  lemma RowReads(c: Cipher, oldKey: string, newKey: string, before: Settings, between: Settings, after: Settings)
    requires SoundCipher(c) && c.ValidKey(newKey)
    requires RowRotated(c, oldKey, newKey, before, between) && RowRotated(c, oldKey, newKey, between, after)
    ensures RowReadsOn(c, oldKey, newKey, before, after)
  {
    forall k | 0 <= k < 5 ensures ReadsOn(c, oldKey, newKey, Cells(before)[k], Cells(after)[k]) {
      assert Rotated(c, oldKey, newKey, Cells(before)[k], Cells(between)[k]) && Rotated(c, oldKey, newKey, Cells(between)[k], Cells(after)[k]);
      Resumes(c, oldKey, newKey, Cells(before)[k], Cells(between)[k], Cells(after)[k]);
      MeaningPreserved(c, oldKey, newKey, Cells(before)[k], Cells(after)[k]);
    }
  }

  lemma RowKeptTwice(c: Cipher, oldKey: string, newKey: string, before: Settings, between: Settings, after: Settings)
    requires SoundCipher(c) && c.ValidKey(newKey)
    requires RowKept(c, oldKey, newKey, before, between) && RowKept(c, oldKey, newKey, between, after)
    ensures RowKept(c, oldKey, newKey, before, after)
  {
    forall k | 0 <= k < 5 ensures Kept(c, oldKey, newKey, Cells(before)[k], Cells(after)[k]) {
      assert Kept(c, oldKey, newKey, Cells(before)[k], Cells(between)[k]) && Kept(c, oldKey, newKey, Cells(between)[k], Cells(after)[k]);
      KeptTwice(c, oldKey, newKey, Cells(before)[k], Cells(between)[k], Cells(after)[k]);
    }
  }

  lemma KeptTwice(c: Cipher, oldKey: string, newKey: string, before: string, between: string, after: string)
    requires SoundCipher(c) && c.ValidKey(newKey)
    requires Kept(c, oldKey, newKey, before, between) && Kept(c, oldKey, newKey, between, after)
    ensures Kept(c, oldKey, newKey, before, after)
  {
  }
}
