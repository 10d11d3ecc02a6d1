/** Salted password hashing: a stored password is the 32-byte salt followed by
    the PBKDF2-HMAC-SHA256 digest of the UTF-8 password under that salt. The key
    derivation function itself is a parameter. */
module PasswordUtils {
  import opened Values

  newtype byte = b: int | 0 <= b < 256

  const SaltLength := 32
  const Iterations := 100000

  /** What `os.urandom(32)` returns. */
  type Salt = s: seq<byte> | |s| == SaltLength witness seq(SaltLength, i => 0 as byte)

  /** `pbkdf2_hmac('sha256', password.encode('utf-8'), salt, iterations)` */
  type Kdf = (string, seq<byte>, nat) -> seq<byte>

  /** `hash_password(password, salt)`; `drawn` is the salt drawn when none is given. */
  function HashPassword(password: string, salt: Option<seq<byte>>, drawn: Salt, kdf: Kdf): (stored: seq<byte>)
    ensures var s := if salt.Some? then salt.value else drawn;
            s <= stored && stored[|s|..] == kdf(password, s, Iterations)
  {
    var s := if salt.Some? then salt.value else drawn;
    s + kdf(password, s, Iterations)
  }

  function Min(a: int, b: int): int { if a <= b then a else b }

  /** `verify_password(stored, provided)`: the first 32 bytes are the salt, the rest
      the digest; slices past the end are empty, as in Python. */
  function VerifyPassword(stored: seq<byte>, provided: string, kdf: Kdf): (ok: bool)
    ensures |stored| >= SaltLength ==>
              (ok <==> kdf(provided, stored[..SaltLength], Iterations) == stored[SaltLength..])
    ensures |stored| < SaltLength ==> (ok <==> kdf(provided, stored, Iterations) == [])
  {
    var cut := Min(SaltLength, |stored|);
    assert |stored| < SaltLength ==> stored[..cut] == stored;
    kdf(provided, stored[..cut], Iterations) == stored[cut..]
  }

  /** A password verifies against the value hashed from it, whichever 32-byte salt was used. */
  lemma {:induction false} HashThenVerify(password: string, salt: Option<Salt>, drawn: Salt, kdf: Kdf)
    ensures VerifyPassword(HashPassword(password, salt, drawn, kdf), password, kdf)
  {
    var s: seq<byte> := if salt.Some? then salt.value else drawn;
    var stored := s + kdf(password, s, Iterations);
    assert stored[..SaltLength] == s;
    assert stored[SaltLength..] == kdf(password, s, Iterations);
  }

  /** Verification succeeds exactly for the passwords whose digest under the stored
      salt matches: a second password verifies iff the derivation cannot tell it apart. */
  lemma {:induction false} VerifyOtherPassword(password: string, other: string, salt: Salt, kdf: Kdf)
    ensures VerifyPassword(HashPassword(password, Some(salt), salt, kdf), other, kdf)
            <==> kdf(other, salt, Iterations) == kdf(password, salt, Iterations)
  {
    var stored := salt + kdf(password, salt, Iterations);
    assert stored[..SaltLength] == salt;
    assert stored[SaltLength..] == kdf(password, salt, Iterations);
  }

  /** `convert_to_binary`: the stored value is already bytes. */
  function ConvertToBinary(stored: seq<byte>): seq<byte> {
    stored
  }

  /** `convert_from_binary` */
  function ConvertFromBinary(b: seq<byte>): seq<byte> {
    b
  }

  /** The two conversions undo each other, so a hash survives the round trip
      through the BLOB column in both directions. */
  lemma ConvertRoundTrip(stored: seq<byte>)
    ensures ConvertFromBinary(ConvertToBinary(stored)) == stored
    ensures ConvertToBinary(ConvertFromBinary(stored)) == stored
  {
  }
}
