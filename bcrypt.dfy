/**
 * The two calls of golang.org/x/crypto/bcrypt the user model makes. A hash is the text
 * "$2a$10$" (version 2a, cost 10 = bcrypt.DefaultCost), then the 22-character salt, then the
 * digest. The expensive key derivation itself is a parameter of type Kdf, and the random salt
 * is an input.
 */
module Bcrypt {
  import opened Wrappers

  /** Version 2a, then the cost bcrypt.DefaultCost (10), then the salt. */
  const HashPrefix := "$2a$10$"
  const SaltLength := 22
  /**
   * The Blowfish key schedule reads 72 bytes: the password followed by a NUL byte, repeated as
   * often as needed. Bytes beyond the 72nd take no part in the digest.
   */
  const KeyScheduleLength := 72
  const Nul: char := 0 as char

  /** A freshly drawn salt, already in bcrypt's base64 alphabet. */
  type Salt = s: string | |s| == SaltLength witness "abcdefghijklmnopqrstuv"

  /** The EksBlowfish digest of (salt, 72-byte key schedule input) at the default cost. */
  type Kdf = (string, string) -> string

  const ErrMismatchedHashAndPassword := "crypto/bcrypt: hashedPassword is not the hash of the given password"
  const ErrHashTooShort := "crypto/bcrypt: hashedSecret too short to be a bcrypted password"

  /** The 72 bytes the key schedule reads: password + NUL, cycled. */
  function EffectiveKey(password: string): (key: string)
    ensures |key| == KeyScheduleLength
    ensures forall i :: 0 <= i < KeyScheduleLength ==> key[i] == (password + [Nul])[i % (|password| + 1)]
  {
    seq(KeyScheduleLength, i requires 0 <= i < KeyScheduleLength => (password + [Nul])[i % (|password| + 1)])
  }

  /** Within the password, the key schedule reads the password itself. */
  lemma EffectiveKeyAt(password: string, i: nat)
    requires i < |password| && i < KeyScheduleLength
    ensures EffectiveKey(password)[i] == password[i]
  {
    assert i % (|password| + 1) == i;
  }

  /** Right after a password shorter than 72 bytes, the key schedule reads its NUL terminator. */
  lemma EffectiveKeyAtEnd(password: string)
    requires |password| < KeyScheduleLength
    ensures EffectiveKey(password)[|password|] == Nul
  {
    assert |password| % (|password| + 1) == |password|;
  }

  /** A password of 72 bytes or more contributes exactly its first 72 bytes. */
  lemma EffectiveKeyOfLongPassword(password: string)
    requires |password| >= KeyScheduleLength
    ensures EffectiveKey(password) == password[..KeyScheduleLength]
  {
    forall i | 0 <= i < KeyScheduleLength
      ensures EffectiveKey(password)[i] == password[i]
    {
      EffectiveKeyAt(password, i);
    }
  }

  /** NUL-free passwords of at most 72 bytes have different key schedules when they differ. */
  lemma EffectiveKeyInjective(p: string, q: string)
    requires Nul !in p && Nul !in q
    requires |p| <= KeyScheduleLength && |q| <= KeyScheduleLength
    requires EffectiveKey(p) == EffectiveKey(q)
    ensures p == q
  {
    if |p| < |q| {
      assert q[|p|] in q;
      EffectiveKeyAtEnd(p);
      EffectiveKeyAt(q, |p|);
    } else if |q| < |p| {
      assert p[|q|] in p;
      EffectiveKeyAtEnd(q);
      EffectiveKeyAt(p, |q|);
    } else {
      forall i | 0 <= i < |p|
        ensures p[i] == q[i]
      {
        EffectiveKeyAt(p, i);
        EffectiveKeyAt(q, i);
      }
    }
  }

  /** A NUL byte lets two different passwords share a key schedule: "a" and "a" NUL "a". */
  lemma NulPasswordsShareKey()
    ensures EffectiveKey("a") == EffectiveKey(['a', Nul, 'a'])
  {
    var k1, k2 := EffectiveKey("a"), EffectiveKey(['a', Nul, 'a']);
    forall i | 0 <= i < KeyScheduleLength
      ensures k1[i] == k2[i]
    {
      assert (i % 4) % 2 == i % 2;
    }
  }

  /** bcrypt.GenerateFromPassword with the salt it drew. */
  function GenerateFromPassword(kdf: Kdf, salt: Salt, password: string): (hash: string)
    ensures |hash| >= |HashPrefix| + SaltLength
    ensures hash[..|HashPrefix|] == HashPrefix && hash[|HashPrefix|..|HashPrefix| + SaltLength] == salt
  {
    HashPrefix + salt + kdf(salt, EffectiveKey(password))
  }

  /** A generated hash is the prefix, then its salt, then the digest of the key schedule. */
  lemma GeneratedHashParts(kdf: Kdf, salt: Salt, password: string)
    ensures var hash := GenerateFromPassword(kdf, salt, password);
            && hash[|HashPrefix|..|HashPrefix| + SaltLength] == salt
            && hash[|HashPrefix| + SaltLength..] == kdf(salt, EffectiveKey(password))
  {
  }

  /**
   * bcrypt.CompareHashAndPassword: None exactly for the hashes that GenerateFromPassword could
   * have produced from `password` under some salt.
   */
  function CompareHashAndPassword(kdf: Kdf, hash: string, password: string): (err: Option<string>)
    ensures err.None? <==> exists salt: Salt :: hash == GenerateFromPassword(kdf, salt, password)
    ensures err.Some? ==> err.value == ErrHashTooShort || err.value == ErrMismatchedHashAndPassword
  {
    var saltEnd := |HashPrefix| + SaltLength;
    if |hash| < saltEnd || hash[..|HashPrefix|] != HashPrefix then
      Some(ErrHashTooShort)
    else
      var salt: Salt := hash[|HashPrefix|..saltEnd];
      if kdf(salt, EffectiveKey(password)) == hash[saltEnd..] then
        assert hash == HashPrefix + salt + hash[saltEnd..];
        assert hash == GenerateFromPassword(kdf, salt, password);
        None
      else
        assert forall s: Salt {:trigger GenerateFromPassword(kdf, s, password)} :: hash != GenerateFromPassword(kdf, s, password) by {
          forall s: Salt
            ensures hash != GenerateFromPassword(kdf, s, password)
          {
            GeneratedHashParts(kdf, s, password);
          }
        }
        Some(ErrMismatchedHashAndPassword)
  }

  /** A hash accepts the password it was generated from. */
  lemma CompareGenerated(kdf: Kdf, salt: Salt, password: string)
    ensures CompareHashAndPassword(kdf, GenerateFromPassword(kdf, salt, password), password).None?
  {
  }

  /** A hash of a password of 72 bytes or more also accepts that password with anything appended. */
  lemma CompareIgnoresBytesBeyondKey(kdf: Kdf, salt: Salt, password: string, suffix: string)
    requires |password| >= KeyScheduleLength
    ensures CompareHashAndPassword(kdf, GenerateFromPassword(kdf, salt, password), password + suffix).None?
  {
    EffectiveKeyOfLongPassword(password);
    EffectiveKeyOfLongPassword(password + suffix);
    assert (password + suffix)[..KeyScheduleLength] == password[..KeyScheduleLength];
    assert GenerateFromPassword(kdf, salt, password) == GenerateFromPassword(kdf, salt, password + suffix);
  }

  /** The hash of "a" also accepts "a" NUL "a". */
  lemma CompareAcceptsNulVariant(kdf: Kdf, salt: Salt)
    ensures CompareHashAndPassword(kdf, GenerateFromPassword(kdf, salt, "a"), ['a', Nul, 'a']).None?
  {
    NulPasswordsShareKey();
    assert GenerateFromPassword(kdf, salt, "a") == GenerateFromPassword(kdf, salt, ['a', Nul, 'a']);
  }

  /**
   * The digest distinguishes key schedules under one salt: the security assumption on
   * EksBlowfish. It says nothing about passwords that share a key schedule.
   */
  ghost predicate CollisionFree(kdf: Kdf, salt: Salt)
  {
    forall k1, k2 :: |k1| == KeyScheduleLength && |k2| == KeyScheduleLength && kdf(salt, k1) == kdf(salt, k2) ==> k1 == k2
  }

  /** A hash rejects every password with a different key schedule, with the mismatch error. */
  lemma CompareOtherPassword(kdf: Kdf, salt: Salt, password: string, other: string)
    requires CollisionFree(kdf, salt)
    requires EffectiveKey(other) != EffectiveKey(password)
    ensures CompareHashAndPassword(kdf, GenerateFromPassword(kdf, salt, password), other) == Some(ErrMismatchedHashAndPassword)
  {
    var hash := GenerateFromPassword(kdf, salt, password);
    assert hash[|HashPrefix| + SaltLength..] == kdf(salt, EffectiveKey(password));
    assert kdf(salt, EffectiveKey(other)) != kdf(salt, EffectiveKey(password));
  }

  /** Hashing one password under two different salts gives two different stored hashes. */
  lemma DistinctSaltsDistinctHashes(kdf: Kdf, salt1: Salt, salt2: Salt, password: string)
    requires salt1 != salt2
    ensures GenerateFromPassword(kdf, salt1, password) != GenerateFromPassword(kdf, salt2, password)
  {
  }
}
