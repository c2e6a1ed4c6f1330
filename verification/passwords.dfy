/** Password hashing (bcrypt through passlib), modelled symbolically.

    A digest is a term built from the salt and the password. Nothing but
    `VerifyPassword` looks inside it, and it compares what bcrypt compares:
    the first 72 bytes of the password's UTF-8 encoding. So a digest verifies
    every password that agrees with its own on those bytes, and, among
    passwords of at most 72 bytes, exactly its own. passlib raises instead of
    hashing or verifying a password longer than 4096 UTF-8 bytes; that refusal
    is not part of this model, which hashes and compares such passwords like
    any other. The salt is the randomness passlib draws; it is a parameter here. */
module Passwords {

  /** bcrypt reads at most this many bytes of a password. */
  const BcryptMaxBytes: nat := 72

  /** passlib refuses, with an exception, any password whose UTF-8 encoding is
      longer than this many bytes. */
  const PasslibMaxSize: nat := 4096

  datatype PasswordHash = BcryptDigest(salt: string, preimage: string)

  /** The UTF-8 encoding of one character, the encoding passlib applies to a `str` secret. */
  function Utf8Char(c: char): (bs: seq<int>)
    ensures 1 <= |bs| <= 4
  {
    var n := c as int;
    var q1 := n / 0x40;
    var q2 := q1 / 0x40;
    var q3 := q2 / 0x40;
    if n < 0x80 then [n]
    else if n < 0x800 then [0xC0 + q1, 0x80 + n % 0x40]
    else if n < 0x1_0000 then [0xE0 + q2, 0x80 + q1 % 0x40, 0x80 + n % 0x40]
    else [0xF0 + q3, 0x80 + q2 % 0x40, 0x80 + q1 % 0x40, 0x80 + n % 0x40]
  }

  /** The UTF-8 encoding of a string. */
  function Utf8(s: string): (bs: seq<int>)
    ensures |bs| >= |s|
  {
    if s == [] then [] else Utf8Char(s[0]) + Utf8(s[1..])
  }

  /** The bytes bcrypt hashes: the encoding, cut after 72 bytes. */
  function BcryptInput(password: string): (bs: seq<int>)
    ensures |bs| <= BcryptMaxBytes
    ensures |Utf8(password)| <= BcryptMaxBytes ==> bs == Utf8(password)
    ensures |Utf8(password)| > BcryptMaxBytes ==> bs == Utf8(password)[..BcryptMaxBytes]
  {
    var bytes := Utf8(password);
    if |bytes| <= BcryptMaxBytes then bytes else bytes[..BcryptMaxBytes]
  }

  /** `get_password_hash`: a salted digest of `password`. */
  function GetPasswordHash(password: string, salt: string): (h: PasswordHash)
    ensures VerifyPassword(password, h)
  {
    BcryptDigest(salt, password)
  }

  /** `verify_password`: does `plain` match the digest on the bytes bcrypt reads?
      The digest's own password always matches, and below the 72-byte cut
      nothing else does. */
  predicate VerifyPassword(plain: string, hashed: PasswordHash): (ok: bool)
    ensures plain == hashed.preimage ==> ok
    ensures (|Utf8(plain)| <= BcryptMaxBytes && |Utf8(hashed.preimage)| <= BcryptMaxBytes)
              ==> (ok <==> plain == hashed.preimage)
  {
    var ok := BcryptInput(plain) == BcryptInput(hashed.preimage);
    if ok && |Utf8(plain)| <= BcryptMaxBytes && |Utf8(hashed.preimage)| <= BcryptMaxBytes then
      Utf8Injective(plain, hashed.preimage);
      ok
    else
      ok
  }

  /** Encoding distributes over concatenation. */
  lemma {:induction false} Utf8Append(a: string, b: string)
    ensures Utf8(a + b) == Utf8(a) + Utf8(b)
  {
    if a != [] {
      assert (a + b)[0] == a[0] && (a + b)[1..] == a[1..] + b;
      Utf8Append(a[1..], b);
    } else {
      assert a + b == b;
    }
  }

  /** The lead byte of a character's encoding fixes how many bytes it has. */
  lemma Utf8CharWidth(c: char, d: char)
    requires Utf8Char(c)[0] == Utf8Char(d)[0]
    ensures |Utf8Char(c)| == |Utf8Char(d)|
  {
  }

  /** A number is fixed by its quotient and remainder. */
  lemma DivModDetermines(n: int, m: int, k: int)
    requires k > 0 && n / k == m / k && n % k == m % k
    ensures n == m
  {
    assert n == k * (n / k) + n % k;
    assert m == k * (m / k) + m % k;
  }

  /** Distinct characters have distinct encodings. */
  lemma Utf8CharInjective(c: char, d: char)
    requires Utf8Char(c) == Utf8Char(d)
    ensures c == d
  {
    var n, m := c as int, d as int;
    Utf8CharWidth(c, d);
    if n >= 0x80 {
      if n >= 0x800 {
        if n >= 0x1_0000 {
          DivModDetermines(n / 0x40 / 0x40, m / 0x40 / 0x40, 0x40);
        }
        DivModDetermines(n / 0x40, m / 0x40, 0x40);
      }
      DivModDetermines(n, m, 0x40);
    }
  }

  /** Distinct strings have distinct encodings. */
  lemma {:induction false} Utf8Injective(s: string, t: string)
    requires Utf8(s) == Utf8(t)
    ensures s == t
  {
    if s != [] && t != [] {
      var cs, ct := Utf8Char(s[0]), Utf8Char(t[0]);
      assert Utf8(s) == cs + Utf8(s[1..]) && Utf8(t) == ct + Utf8(t[1..]);
      assert cs[0] == Utf8(s)[0] && ct[0] == Utf8(t)[0];
      Utf8CharWidth(s[0], t[0]);
      assert cs == Utf8(s)[..|cs|] && ct == Utf8(t)[..|ct|];
      Utf8CharInjective(s[0], t[0]);
      assert Utf8(s[1..]) == Utf8(s)[|cs|..] && Utf8(t[1..]) == Utf8(t)[|ct|..];
      Utf8Injective(s[1..], t[1..]);
      assert s == [s[0]] + s[1..] && t == [t[0]] + t[1..];
    }
  }

  /** Among passwords of at most 72 bytes, a digest verifies its own password and
      no other, whatever the salt. */
  lemma DigestBindsPassword(password: string, other: string, salt: string)
    requires |Utf8(password)| <= BcryptMaxBytes && |Utf8(other)| <= BcryptMaxBytes
    ensures VerifyPassword(other, GetPasswordHash(password, salt)) <==> other == password
  {
    if VerifyPassword(other, GetPasswordHash(password, salt)) {
      Utf8Injective(other, password);
    }
  }

  /** bcrypt ignores every byte after the 72nd: once two passwords that passlib
      accepts share a prefix of at least 72 bytes, each verifies against the
      other's digest. */
  lemma LongPasswordsShareDigest(prefix: string, stored: string, offered: string, salt: string)
    requires |Utf8(prefix)| >= BcryptMaxBytes
    requires |Utf8(prefix + stored)| <= PasslibMaxSize && |Utf8(prefix + offered)| <= PasslibMaxSize
    ensures VerifyPassword(prefix + offered, GetPasswordHash(prefix + stored, salt))
  {
    Utf8Append(prefix, offered);
    Utf8Append(prefix, stored);
    assert Utf8(prefix + offered)[..BcryptMaxBytes] == Utf8(prefix)[..BcryptMaxBytes];
    assert Utf8(prefix + stored)[..BcryptMaxBytes] == Utf8(prefix)[..BcryptMaxBytes];
  }
}
