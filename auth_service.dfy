/** src/services/authService.js: the credential lookup, the session token
    and its check. */
module AuthService {
  import opened Wrappers
  import opened Strings
  import opened MockData

  /** The admin record handed to the client: everything but the hash. */
  datatype AdminData = AdminData(id: int, username: string, email: string, fullName: string, createdAt: int)

  datatype Session = Session(admin: AdminData, token: string)

  /** `const { password_hash, ...adminData } = admin`. */
  function WithoutPassword(a: Admin): AdminData {
    AdminData(a.id, a.username, a.email, a.fullName, a.createdAt)
  }

  predicate Matches(a: Admin, email: string, password: string) {
    a.email == email && a.passwordHash == password
  }

  /** `admins.find(a => a.email === email && a.password_hash === password)`. */
  function FindAdmin(admins: seq<Admin>, email: string, password: string): (r: Option<Admin>)
    ensures r.None? <==> forall a :: a in admins ==> !Matches(a, email, password)
    ensures r.Some? ==> r.value in admins && Matches(r.value, email, password)
  {
    if admins == [] then None
    else if Matches(admins[0], email, password) then Some(admins[0])
    else FindAdmin(admins[1..], email, password)
  }

  /** The admin found is the first that matches. */
  lemma {:induction false} FindAdminFirst(admins: seq<Admin>, email: string, password: string)
    requires FindAdmin(admins, email, password).Some?
    ensures exists i :: 0 <= i < |admins| && admins[i] == FindAdmin(admins, email, password).value
                        && forall j :: 0 <= j < i ==> !Matches(admins[j], email, password)
  {
    if !Matches(admins[0], email, password) {
      var rest := admins[1..];
      FindAdminFirst(rest, email, password);
      var i :| 0 <= i < |rest| && rest[i] == FindAdmin(rest, email, password).value
               && forall j :: 0 <= j < i ==> !Matches(rest[j], email, password);
      assert admins[i + 1] == rest[i];
      forall j | 0 <= j < i + 1 ensures !Matches(admins[j], email, password) {
        if j > 0 { assert admins[j] == rest[j - 1]; }
      }
    } else {
      assert admins[0] == FindAdmin(admins, email, password).value;
    }
  }

  const TokenPrefix := "mock_token_"

  /** `mock_token_${admin.id}_${Date.now()}`. */
  function Token(id: int, now: int): (t: string)
    ensures StartsWith(t, TokenPrefix)
  {
    TokenPrefix + IntToString(id) + "_" + IntToString(now)
  }

  /** `login(email, password)` against the stored admins at instant `now`. */
  function Login(admins: seq<Admin>, email: string, password: string, now: int): Result<Session> {
    match FindAdmin(admins, email, password)
    case None => Failure("Invalid credentials")
    case Some(a) => Success(Session(WithoutPassword(a), Token(a.id, now)))
  }

  /** `validateToken(token)`: a missing or empty token is refused, any
      other is accepted exactly when it has the prefix. */
  function ValidateToken(token: Option<string>): (ok: bool)
    ensures ok <==> token.Some? && StartsWith(token.value, TokenPrefix)
  {
    token.Some? && token.value != "" && StartsWith(token.value, TokenPrefix)
  }

  /** Every token that login issues is accepted; a missing token, the empty
      token and a token without the prefix are refused. */
  lemma ValidateTokenMeaning(id: int, now: int)
    ensures ValidateToken(Some(Token(id, now)))
    ensures !ValidateToken(None)
    ensures !ValidateToken(Some(""))
    ensures !ValidateToken(Some("token_1"))
  {
    assert "token_1"[0] != TokenPrefix[0];
  }

  /** A token names exactly one admin and one instant: tokens issued for
      different admins, or at different instants, differ. */
  lemma TokenInjective(id: int, now: int, id': int, now': int)
    ensures Token(id, now) == Token(id', now') <==> id == id' && now == now'
  {
    var a, a' := IntToString(id), IntToString(id');
    var b, b' := IntToString(now), IntToString(now');
    var t, t' := Token(id, now), Token(id', now');
    IntToStringChars(id);
    IntToStringChars(id');
    if t == t' {
      assert t[|TokenPrefix|..] == a + "_" + b && t'[|TokenPrefix|..] == a' + "_" + b';
      SeparatedPair(a, b, a', b');
      IntToStringInjective(id, id');
      IntToStringInjective(now, now');
    }
  }

  /** `a_b` splits back into `a` and `b` when `a` has no underscore. */
  lemma SeparatedPair(a: string, b: string, a': string, b': string)
    requires forall k :: 0 <= k < |a| ==> a[k] != '_'
    requires forall k :: 0 <= k < |a'| ==> a'[k] != '_'
    requires a + "_" + b == a' + "_" + b'
    ensures a == a' && b == b'
  {
    if |a| < |a'| {
      SeparatorClash(a, b, a', b');
    } else if |a'| < |a| {
      SeparatorClash(a', b', a, b);
    } else {
      var x := a + "_" + b;
      assert a == x[..|a|] && a' == x[..|a|];
      assert b == x[|a| + 1..] && b' == x[|a| + 1..];
    }
  }

  lemma SeparatorClash(a: string, b: string, a': string, b': string)
    requires |a| < |a'| && a'[|a|] != '_'
    ensures a + "_" + b != a' + "_" + b'
  {
    assert (a + "_" + b)[|a|] == '_';
    assert (a' + "_" + b')[|a|] == a'[|a|];
  }

  /** Login succeeds exactly when some admin has both the email and the
      password; the first such admin is signed in, without the hash, with a
      token naming its id and the instant, and that token validates. */
  lemma LoginMeaning(admins: seq<Admin>, email: string, password: string, now: int)
    ensures var r := Login(admins, email, password, now);
            (r.Success? <==> exists a :: a in admins && a.email == email && a.passwordHash == password)
            && (r.Failure? ==> r.error == "Invalid credentials")
            && (r.Success? ==>
                  exists i :: 0 <= i < |admins| && Matches(admins[i], email, password)
                              && (forall j :: 0 <= j < i ==> !Matches(admins[j], email, password))
                              && r.value.admin == WithoutPassword(admins[i])
                              && r.value.token == TokenPrefix + IntToString(admins[i].id) + "_" + IntToString(now))
            && (r.Success? ==> ValidateToken(Some(r.value.token)))
  {
    var r := Login(admins, email, password, now);
    if r.Success? {
      FindAdminFirst(admins, email, password);
      var t := r.value.token;
      assert StartsWith(t, TokenPrefix);
      assert |t| > 0;
    }
  }

  /** The seeded admin can sign in with the seeded password. */
  lemma SeedAdminSignsIn(now: int)
    ensures Login(SeedAdmins, "admin@survey.com", "admin123", now).Success?
    ensures Login(SeedAdmins, "admin@survey.com", "admin123", now).value.admin.id == 1
  {
    assert Matches(SeedAdmins[0], "admin@survey.com", "admin123");
  }
}
