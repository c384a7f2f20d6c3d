/** The mock login endpoint (src/app/api/auth/login/route.ts): any present
    email and password are accepted, and the user's name is the part of the
    email before its first "@". */
module LoginRoute {
  import opened Common

  /** The JSON body; an absent field is None. */
  datatype LoginBody = LoginBody(email: Option<string>, password: Option<string>)

  datatype LoginUser = LoginUser(id: string, email: string, name: string)

  /** `s.split('@')[0]`: the longest prefix without "@". */
  function BeforeAt(s: string): (r: string)
    ensures |r| <= |s| && r == s[..|r|]
    ensures '@' !in r
    ensures |r| < |s| ==> s[|r|] == '@'
  {
    if s == [] || s[0] == '@' then [] else [s[0]] + BeforeAt(s[1..])
  }

  /** An email without "@" is its own name. */
  lemma {:induction false} BeforeAtNoAt(s: string)
    requires '@' !in s
    ensures BeforeAt(s) == s
  {
    if s != [] {
      assert s[1..] == s[1..] && '@' !in s[1..] by {
        forall k | 0 <= k < |s[1..]| ensures s[1..][k] != '@' {
          assert s[1..][k] == s[k + 1];
        }
      }
      BeforeAtNoAt(s[1..]);
    }
  }

  /** The name of "local@rest" is "local", whatever `rest` holds. */
  lemma {:induction false} BeforeAtSplit(local: string, rest: string)
    requires '@' !in local
    ensures BeforeAt(local + "@" + rest) == local
  {
    if local != [] {
      assert (local + "@" + rest)[1..] == local[1..] + "@" + rest;
      assert '@' !in local[1..] by {
        forall k | 0 <= k < |local[1..]| ensures local[1..][k] != '@' {
          assert local[1..][k] == local[k + 1];
        }
      }
      BeforeAtSplit(local[1..], rest);
    }
  }

  /** POST /api/auth/login; `now` is `Date.now()`. */
  function Login(body: LoginBody, now: nat): (r: Reply<LoginUser>)
    ensures r.Ok? <==> Truthy(body.email) && Truthy(body.password)
    ensures r.Fail? ==> r == Fail(401, "Invalid credentials")
    ensures r.Ok? ==> r.status == 200 && r.data.email == body.email.value
    ensures r.Ok? ==> r.data.name == BeforeAt(body.email.value) && r.data.id == "user_" + Decimal(now)
  {
    if Truthy(body.email) && Truthy(body.password) then
      var email := body.email.value;
      Ok(200, LoginUser("user_" + Decimal(now), email, BeforeAt(email)))
    else
      Fail(401, "Invalid credentials")
  }
}
