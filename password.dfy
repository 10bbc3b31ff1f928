/**
  Bucket passwords: Argon2id hashes stored as `argon2id$<salt>$<key>`, salt
  and key in unpadded standard base64. Argon2id itself is a parameter: any
  deterministic function from (password, salt) to a 32-byte key.
*/
module Password {
  import opened Wrappers
  import Base64
  import Text

  const Argon2Time: nat := 1
  const Argon2Memory: nat := 64 * 1024  // KiB, i.e. 64 MiB
  const Argon2Threads: nat := 4
  const Argon2KeyLen: nat := 32
  const SaltLen: nat := 16

  /** The algorithm tag that leads every stored hash. */
  const Tag: string := "argon2id"
  const Separator: char := '$'

  type Salt = s: seq<byte> | |s| == SaltLen witness seq(16, _ => 0)
  type Key = k: seq<byte> | |k| == Argon2KeyLen witness seq(32, _ => 0)

  /** Argon2id with the parameters above, applied to the password's bytes and a salt. */
  type Kdf = (string, seq<byte>) -> Key

  datatype HashError = EmptyPassword | RandomSourceFailed

  /**
    `HashPassword`: `random` is what the system random source produced for the
    salt, None when reading it failed.
  */
  function HashPassword(kdf: Kdf, password: string, random: Option<Salt>): (r: Result<string, HashError>)
    ensures password == "" ==> r == Err(EmptyPassword)
    ensures password != "" && random.None? ==> r == Err(RandomSourceFailed)
    ensures r.Ok? ==>
      var parts := Text.Split(r.value, Separator);
      && |parts| == 3 && parts[0] == Tag
      && Base64.Decode(parts[1]) == Some(random.value)
      && Base64.Decode(parts[2]) == Some(kdf(password, random.value))
  {
    if password == "" then Err(EmptyPassword)
    else match random
      case None => Err(RandomSourceFailed)
      case Some(salt) =>
        var encoded := Tag + [Separator] + Base64.Encode(salt) + [Separator] + Base64.Encode(kdf(password, salt));
        Base64.EncodeHasNoDollar(salt);
        Base64.EncodeHasNoDollar(kdf(password, salt));
        EncodedFields(Base64.Encode(salt), Base64.Encode(kdf(password, salt)));
        Base64.DecodeOfEncode(salt);
        Base64.DecodeOfEncode(kdf(password, salt));
        Ok(encoded)
  }

  /** Splitting `argon2id$<a>$<b>` on '$' gives the three fields back when a and b hold no '$'. */
  lemma EncodedFields(a: string, b: string)
    requires Separator !in a && Separator !in b
    ensures Text.Split(Tag + [Separator] + a + [Separator] + b, Separator) == [Tag, a, b]
  {
    Text.JoinThree(Tag, a, b, Separator);
    assert Separator !in Tag;
    Text.SplitJoin([Tag, a, b], Separator);
  }

  /** `VerifyPassword`: malformed input verifies false; it never fails. */
  function VerifyPassword(kdf: Kdf, password: string, hash: string): bool
  {
    if password == "" || hash == "" then false
    else
      var parts := Text.Split(hash, Separator);
      if |parts| != 3 || parts[0] != Tag then false
      else match Base64.Decode(parts[1])
        case None => false
        case Some(salt) =>
          match Base64.Decode(parts[2])
          case None => false
          case Some(stored) => stored == kdf(password, salt)
  }

  /** Round trip: a password verifies against its own hash. */
  lemma VerifyOwnHash(kdf: Kdf, password: string, salt: Salt)
    requires password != ""
    ensures HashPassword(kdf, password, Some(salt)).Ok?
    ensures VerifyPassword(kdf, password, HashPassword(kdf, password, Some(salt)).value)
  {
  }

  /**
    Another password verifies against the hash exactly when the KDF gives it
    the same key under the stored salt.
  */
  lemma VerifyOtherPassword(kdf: Kdf, password: string, other: string, salt: Salt)
    requires password != "" && other != ""
    ensures VerifyPassword(kdf, other, HashPassword(kdf, password, Some(salt)).value)
        <==> kdf(other, salt) == kdf(password, salt)
  {
  }

  /** Empty input verifies false. */
  lemma VerifyRejectsEmpty(kdf: Kdf, password: string, hash: string)
    requires password == "" || hash == ""
    ensures !VerifyPassword(kdf, password, hash)
  {
  }

  /** A hash that is not three '$'-separated fields led by the tag verifies false. */
  lemma VerifyRejectsBadFormat(kdf: Kdf, password: string, hash: string)
    requires var parts := Text.Split(hash, Separator); |parts| != 3 || parts[0] != Tag
    ensures !VerifyPassword(kdf, password, hash)
  {
  }

  /** A field that is not valid base64 makes the hash verify false. */
  lemma VerifyRejectsBadBase64(kdf: Kdf, password: string, hash: string)
    requires var parts := Text.Split(hash, Separator);
      |parts| == 3 && (Base64.Decode(parts[1]).None? || Base64.Decode(parts[2]).None?)
    ensures !VerifyPassword(kdf, password, hash)
  {
  }

  /**
    Soundness: a password verifies only against a well-formed hash whose
    stored key is, byte for byte, the key the KDF derives from the stored
    salt; in particular the stored key is 32 bytes long.
  */
  lemma VerifySound(kdf: Kdf, password: string, hash: string)
    requires VerifyPassword(kdf, password, hash)
    ensures password != ""
    ensures exists a, b :: (hash == Tag + [Separator] + a + [Separator] + b
      && Base64.Decode(a).Some? && Base64.Decode(b) == Some(kdf(password, Base64.Decode(a).value)))
    ensures var stored := Base64.Decode(Text.Split(hash, Separator)[2]);
      stored.Some? && |stored.value| == Argon2KeyLen
  {
    var parts := Text.Split(hash, Separator);
    Text.SplitThree(hash, Separator);
    assert hash == Tag + [Separator] + parts[1] + [Separator] + parts[2];
  }

  /** The encoded salt and key are 22 and 43 characters long. */
  lemma HashFieldLengths(kdf: Kdf, password: string, salt: Salt)
    requires password != ""
    ensures var parts := Text.Split(HashPassword(kdf, password, Some(salt)).value, Separator);
      |parts[1]| == 22 && |parts[2]| == 43
  {
    Base64.EncodeLength(salt);
    Base64.EncodeLength(kdf(password, salt));
    Base64.EncodeHasNoDollar(salt);
    Base64.EncodeHasNoDollar(kdf(password, salt));
    EncodedFields(Base64.Encode(salt), Base64.Encode(kdf(password, salt)));
  }
}
