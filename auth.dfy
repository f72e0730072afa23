/**
 * Single-user authentication (`auth.rs` of the core crate): one credential
 * row holding the password hash and the current session token. Hashing,
 * hash verification and the random token bytes come from outside the model
 * and are parameters here; the hex encoding of the token is modelled.
 */
module Auth {
  import opened Wrappers
  import opened Tables
  import opened Errors
  import opened Models
  import opened Db

  type Byte = b: int | 0 <= b < 256

  /** The number of random bytes in a token. */
  const TokenBytes := 32

  predicate IsHexDigit(c: char) {
    '0' <= c <= '9' || 'a' <= c <= 'f'
  }

  /** The lower-case hex digit of a nibble. */
  function HexDigit(d: int): (c: char)
    requires 0 <= d < 16
    ensures IsHexDigit(c)
  {
    if d < 10 then (48 + d) as char else (87 + d) as char
  }

  function HexValue(c: char): (v: int)
    requires IsHexDigit(c)
    ensures 0 <= v < 16 && HexDigit(v) == c
  {
    if c <= '9' then c as int - 48 else c as int - 87
  }

  /** `hex::encode`: two lower-case hex digits per byte, high nibble first. */
  function HexEncode(bytes: seq<Byte>): (s: string)
    ensures |s| == 2 * |bytes|
    ensures forall i :: 0 <= i < |s| ==> IsHexDigit(s[i])
  {
    if bytes == [] then []
    else [HexDigit(bytes[0] / 16), HexDigit(bytes[0] % 16)] + HexEncode(bytes[1..])
  }

  /** The inverse of `HexEncode`, for strings of hex digit pairs. */
  function HexDecode(s: string): seq<Byte>
    requires |s| % 2 == 0 && forall i :: 0 <= i < |s| ==> IsHexDigit(s[i])
    decreases |s|
  {
    if s == [] then []
    else [HexValue(s[0]) * 16 + HexValue(s[1]) as Byte] + HexDecode(s[2..])
  }

  lemma {:induction false} HexRoundTrip(bytes: seq<Byte>)
    ensures HexDecode(HexEncode(bytes)) == bytes
    decreases |bytes|
  {
    if bytes != [] {
      var s := HexEncode(bytes);
      var hi, lo := bytes[0] / 16, bytes[0] % 16;
      assert s[0] == HexDigit(hi) && s[1] == HexDigit(lo) && s[2..] == HexEncode(bytes[1..]);
      assert HexValue(s[0]) == hi && HexValue(s[1]) == lo;
      HexRoundTrip(bytes[1..]);
    }
  }

  /** `generate_token`: the hex encoding of the 32 random bytes drawn. */
  function GenerateToken(random: seq<Byte>): (t: string)
    requires |random| == TokenBytes
    ensures |t| == 64
    ensures forall i :: 0 <= i < |t| ==> IsHexDigit(t[i])
    ensures HexDecode(t) == random
  {
    HexRoundTrip(random);
    HexEncode(random)
  }

  /** Distinct random draws give distinct tokens. */
  lemma TokensDistinct(a: seq<Byte>, b: seq<Byte>)
    requires |a| == TokenBytes && |b| == TokenBytes && a != b
    ensures GenerateToken(a) != GenerateToken(b)
  {
    HexRoundTrip(a);
    HexRoundTrip(b);
  }

  // ---------------------------------------------------------------- the credential row

  function IsCredential(): AuthRow -> bool {
    (a: AuthRow) => a.id == 1
  }

  function WithToken(token: string): AuthRow -> AuthRow {
    (a: AuthRow) => a.(token := token)
  }

  /** The token stored in row 1, if there is one. */
  function StoredToken(auth: seq<AuthRow>): (r: Option<string>)
    ensures r.Some? <==> exists i :: 0 <= i < |auth| && auth[i].id == 1
  {
    match First(auth, IsCredential())
    case Some(a) => Some(a.token)
    case None => None
  }

  /** What `verify_token` answers: the token is the stored one. */
  predicate Verifies(auth: seq<AuthRow>, token: string) {
    StoredToken(auth) == Some(token)
  }

  /** `setup`: refused once a credential exists; otherwise stores the hash and a fresh token as row 1 and returns the token. */
  method Setup(db: Database, password: string, hashed: Result<string, string>, random: seq<Byte>)
    returns (r: Result<AuthResponse, AppError>)
    requires db.Valid() && |random| == TokenBytes
    modifies db
    ensures db.Valid()
    ensures |old(db.auth)| > 0 ==> r == Err(AuthAlreadyConfigured) && db.State() == old(db.State())
    ensures |old(db.auth)| == 0 && hashed.Err? ==>
              r == Err(BadRequest("Hash error: " + hashed.error)) && db.State() == old(db.State())
    ensures |old(db.auth)| == 0 && hashed.Ok? ==>
              && r == Ok(AuthResponse(GenerateToken(random)))
              && db.State() == old(db.State()).(auth := [AuthRow(1, hashed.value, GenerateToken(random))])
  {
    var configured := |db.auth| > 0;
    if configured {
      return Err(AuthAlreadyConfigured);
    }
    if hashed.Err? {
      return Err(BadRequest("Hash error: " + hashed.error));
    }
    var token := GenerateToken(random);
    db.WriteAuth([AuthRow(1, hashed.value, token)]);
    r := Ok(AuthResponse(token));
  }

  /**
   * `login`: Unauthorized without a credential or with a password the
   * stored hash rejects; an unparsable hash is a BadRequest; otherwise a
   * fresh token replaces the stored one and is returned.
   */
  method Login(db: Database, password: string, check: (string, string) -> Result<bool, string>, random: seq<Byte>)
    returns (r: Result<AuthResponse, AppError>)
    requires db.Valid() && |random| == TokenBytes
    modifies db
    ensures db.Valid()
    ensures First(old(db.auth), IsCredential()).None? ==> r == Err(Unauthorized) && db.State() == old(db.State())
    ensures First(old(db.auth), IsCredential()).Some? ==>
              var outcome := check(password, First(old(db.auth), IsCredential()).value.passwordHash);
              && (outcome.Err? ==> r == Err(BadRequest("Hash parse error: " + outcome.error)) && db.State() == old(db.State()))
              && (outcome == Ok(false) ==> r == Err(Unauthorized) && db.State() == old(db.State()))
              && (outcome == Ok(true) ==>
                    && r == Ok(AuthResponse(GenerateToken(random)))
                    && db.State() == old(db.State()).(auth := UpdateWhere(old(db.auth), IsCredential(), WithToken(GenerateToken(random)))))
  {
    var row := First(db.auth, IsCredential());
    if row.None? {
      return Err(Unauthorized);
    }
    var outcome := check(password, row.value.passwordHash);
    if outcome.Err? {
      return Err(BadRequest("Hash parse error: " + outcome.error));
    }
    if !outcome.value {
      return Err(Unauthorized);
    }
    var token := GenerateToken(random);
    var rows := UpdateWhere(db.auth, IsCredential(), WithToken(token));
    assert forall a :: a in rows ==> a.id == 1 by {
      forall a | a in rows ensures a.id == 1 {
        var i :| 0 <= i < |rows| && rows[i] == a;
        assert db.auth[i] in db.auth;
      }
    }
    db.WriteAuth(rows);
    r := Ok(AuthResponse(token));
  }

  /** `verify_token`: whether a credential exists and its token is `token`; never an error. */
  method VerifyToken(db: Database, token: string) returns (r: Result<bool, AppError>)
    ensures r == Ok(Verifies(db.auth, token))
  {
    var stored := First(db.auth, IsCredential());
    match stored
    case Some(a) => r := Ok(a.token == token);
    case None => r := Ok(false);
  }

  /** `is_setup`: whether the credential table has a row. */
  method IsSetup(db: Database) returns (r: Result<bool, AppError>)
    ensures r == Ok(|db.auth| > 0)
  {
    var count := |db.auth|;
    r := Ok(count > 0);
  }

  // ---------------------------------------------------------------- properties

  /** After `setup`, exactly the returned token verifies. */
  lemma SetupTokenVerifies(hash: string, token: string, t: string)
    ensures Verifies([AuthRow(1, hash, token)], t) <==> t == token
  {
    FirstUnique([AuthRow(1, hash, token)], IsCredential(), 0);
  }

  /** After a successful `login`, exactly the new token verifies: the previous one stops working unless it is the same. */
  lemma LoginRotatesToken(auth: seq<AuthRow>, token: string, t: string)
    requires AuthOk(auth) && |auth| == 1
    ensures Verifies(UpdateWhere(auth, IsCredential(), WithToken(token)), t) <==> t == token
  {
    var rows := UpdateWhere(auth, IsCredential(), WithToken(token));
    assert auth[0] in auth;
    assert rows[0] == auth[0].(token := token);
    FirstUnique(rows, IsCredential(), 0);
  }

  /** Without a credential nothing verifies, and a login is refused. */
  lemma NothingVerifiesBeforeSetup(t: string)
    ensures !Verifies([], t)
  {
  }
}
