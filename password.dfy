/** Password hashing of the auth service (internal/services/auth_service.go):
    `hashPassword`, `verifyPassword` and the two hand-written helpers they
    use, `splitPasswordHash` and `subtle`.

    Argon2id and base64 are foreign code; they enter as function values in
    `Primitives`, and the only facts used about them are the laws in
    `Lawful`, which the lemmas take as hypotheses. Nothing is claimed about
    the strength of the hash. */
module PasswordHash {

  import opened Wrappers
  import opened Strings

  type byte = bv8

  /** `argon2.IDKey(password, salt, 1, 64*1024, 4, 32)` and a 16-byte salt. */
  const ArgonTime: nat := 1
  const ArgonMemory: nat := 64 * 1024
  const ArgonThreads: nat := 4
  const ArgonKeyLen: nat := 32
  const SaltLen: nat := 16

  /** What `rand.Read` fills the salt with. */
  type Salt = s: seq<byte> | |s| == SaltLen witness seq(SaltLen, _ => 0)

  datatype Primitives = Primitives(
    /** `argon2.IDKey([]byte(password), salt, time, memory, threads, keyLen)` */
    argon2IdKey: (string, seq<byte>, nat, nat, nat, nat) -> seq<byte>,
    /** `base64.StdEncoding.EncodeToString` */
    encode: seq<byte> -> string,
    /** `base64.StdEncoding.DecodeString`; `None` when it returns an error */
    decode: string -> Option<seq<byte>>)

  /** The facts about Argon2id and standard base64 that the proofs rely on:
      decoding undoes encoding, the base64 alphabet has no ':', only the
      empty input encodes to the empty string, and the KDF returns as many
      bytes as asked for. */
  ghost predicate Lawful(p: Primitives)
  {
    && (forall b :: p.decode(p.encode(b)) == Some(b))
    && (forall b :: ':' !in p.encode(b))
    && (forall b :: |b| > 0 ==> p.encode(b) != [])
    && (forall pw, salt, t, m, th, n :: |p.argon2IdKey(pw, salt, t, m, th, n)| == n)
  }

  /** The digest of `password` under `salt` with the service's fixed
      parameters. */
  function Argon2(p: Primitives, password: string, salt: seq<byte>): seq<byte>
  {
    p.argon2IdKey(password, salt, ArgonTime, ArgonMemory, ArgonThreads, ArgonKeyLen)
  }

  /** The stored form: base64 salt, ':', base64 digest. */
  function EncodedHash(p: Primitives, password: string, salt: seq<byte>): string
  {
    p.encode(salt) + ":" + p.encode(Argon2(p, password, salt))
  }

  /** `hashPassword`; `random` is what `rand.Read` produced, `None` when it
      failed, in which case no hash is produced. */
  function HashPassword(p: Primitives, password: string, random: Option<Salt>): (r: Option<string>)
    ensures r.None? <==> random.None?
    ensures r.Some? ==> r.value == EncodedHash(p, password, random.value)
  {
    match random
    case None => None
    case Some(salt) => Some(EncodedHash(p, password, salt))
  }

  /** What `splitPasswordHash` returns: the pieces between ':' characters,
      empty ones included, except that the last piece is dropped when it is
      empty (only that one: "a::" gives ["a", ""]). */
  function PasswordParts(encoded: string): (parts: seq<string>)
    ensures var pieces := Split(encoded, ':');
            if pieces[|pieces| - 1] == "" then parts + [""] == pieces else parts == pieces
  {
    var pieces := Split(encoded, ':');
    if pieces[|pieces| - 1] == "" then pieces[..|pieces| - 1] else pieces
  }

  /** `splitPasswordHash`: one left-to-right pass that closes the current
      piece at every ':' and keeps the last piece only if it is not empty. */
  method SplitPasswordHash(encoded: string) returns (parts: seq<string>)
    ensures parts == PasswordParts(encoded)
  {
    parts := [];
    var current := "";
    for i := 0 to |encoded|
      invariant Split(encoded[..i], ':') == parts + [current]
    {
      var c := encoded[i];
      assert encoded[..i + 1] == encoded[..i] + [c];
      if c == ':' {
        parts := parts + [current];
        current := "";
      } else {
        current := current + [c];
      }
    }
    assert encoded[..|encoded|] == encoded;
    if current != "" {
      parts := parts + [current];
    }
  }

  /** Two ':'-free strings joined by ':' split back into themselves, provided
      the second is not empty. */
  lemma PasswordPartsOfPair(a: string, b: string)
    requires ':' !in a && ':' !in b && b != ""
    ensures PasswordParts(a + ":" + b) == [a, b]
  {
    SplitIsPair(a + ":" + b, ':', a, b);
  }

  /** A second ':' starts a third piece instead of staying inside the
      second one, so "a:b:c" has three parts and can never verify; when
      nothing follows it, the empty third piece is dropped and "a:b:" has
      the same two parts as "a:b". */
  lemma PasswordPartsSplitsEveryColon()
    ensures PasswordParts("a:b:c") == ["a", "b", "c"]
    ensures PasswordParts("a:b:") == ["a", "b"]
  {
    SplitIsPair("a:b", ':', "a", "b");
    assert "a:b:" == "a:b" + [':'];
    SplitSnoc("a:b", ':', ':');
    assert Split("a:b:", ':')[..2] == ["a", "b"];
    assert "a:b:c" == "a:b:" + ['c'];
    assert Split("a:b:", ':') == ["a", "b", ""];
    SplitSnoc("a:b:", 'c', ':');
    assert "" + ['c'] == "c";
  }

  /** Only one trailing empty piece is dropped: "a:" has the single part
      "a", while "a::" keeps an empty second part. */
  lemma PasswordPartsDropsOneTrailingEmpty()
    ensures PasswordParts("a:") == ["a"]
    ensures PasswordParts("a::") == ["a", ""]
  {
    SplitWithoutSep("a", ':');
    assert "a:" == "a" + [':'];
    SplitSnoc("a", ':', ':');
    assert "a::" == "a:" + [':'];
    SplitSnoc("a:", ':', ':');
  }

  /** `subtle`: equal lengths and then a comparison of every byte that ORs
      the differences together instead of stopping at the first one. */
  method Subtle(a: seq<byte>, b: seq<byte>) returns (equal: bool)
    ensures equal <==> a == b
  {
    if |a| != |b| {
      return false;
    }
    var acc: byte := 0;
    for i := 0 to |a|
      invariant acc == 0 <==> a[..i] == b[..i]
    {
      assert a[..i + 1] == a[..i] + [a[i]] && b[..i + 1] == b[..i] + [b[i]];
      acc := acc | (a[i] ^ b[i]);
    }
    assert a[..|a|] == a && b[..|b|] == b;
    return acc == 0;
  }

  /** What `verifyPassword` decides: exactly two parts, both valid base64,
      and the stored digest equals the digest of the candidate under the
      stored salt. */
  predicate PasswordMatches(p: Primitives, password: string, encoded: string)
  {
    var parts := PasswordParts(encoded);
    && |parts| == 2
    && p.decode(parts[0]).Some?
    && p.decode(parts[1]).Some?
    && p.decode(parts[1]).value == Argon2(p, password, p.decode(parts[0]).value)
  }

  /** `verifyPassword`. */
  method VerifyPassword(p: Primitives, password: string, encoded: string) returns (ok: bool)
    ensures ok == PasswordMatches(p, password, encoded)
  {
    var parts := SplitPasswordHash(encoded);
    if |parts| != 2 {
      return false;
    }
    var salt := p.decode(parts[0]);
    if salt.None? {
      return false;
    }
    var hash := p.decode(parts[1]);
    if hash.None? {
      return false;
    }
    var testHash := Argon2(p, password, salt.value);
    ok := Subtle(hash.value, testHash);
  }

  /** A candidate password verifies against a stored hash exactly when it
      has the same Argon2id digest under the stored salt; in particular the
      password that was hashed always verifies. */
  lemma VerifyEncodedHash(p: Primitives, password: string, candidate: string, salt: seq<byte>)
    requires Lawful(p)
    ensures PasswordMatches(p, candidate, EncodedHash(p, password, salt))
            <==> Argon2(p, candidate, salt) == Argon2(p, password, salt)
    ensures PasswordMatches(p, password, EncodedHash(p, password, salt))
  {
    var digest := Argon2(p, password, salt);
    assert |digest| == ArgonKeyLen;
    PasswordPartsOfPair(p.encode(salt), p.encode(digest));
  }

  /** Two hashes of the same password under different salts differ (and by
      VerifyEncodedHash both verify). */
  lemma DistinctSaltsDistinctHashes(p: Primitives, password: string, salt1: seq<byte>, salt2: seq<byte>)
    requires Lawful(p)
    requires salt1 != salt2
    ensures EncodedHash(p, password, salt1) != EncodedHash(p, password, salt2)
  {
    var d1, d2 := Argon2(p, password, salt1), Argon2(p, password, salt2);
    assert |d1| == ArgonKeyLen && |d2| == ArgonKeyLen;
    PasswordPartsOfPair(p.encode(salt1), p.encode(d1));
    PasswordPartsOfPair(p.encode(salt2), p.encode(d2));
    assert p.decode(p.encode(salt1)) == Some(salt1);
    assert p.decode(p.encode(salt2)) == Some(salt2);
  }
}
