/** The mock signup endpoint (src/app/api/auth/signup/route.ts): it checks
    that a name, an email and a password are present and answers with a user
    whose id is derived from the email. */
module SignupRoute {
  import opened Common

  /** The JSON body; an absent field is None. */
  datatype SignupBody = SignupBody(name: Option<string>, email: Option<string>, password: Option<string>)

  datatype NewUser = NewUser(id: string, name: string, email: string)

  /** The success body: `message` and `user`. */
  datatype Created = Created(message: string, user: NewUser)

  /** One character of `email.replace(/[^a-zA-Z0-9]/g, '_')`. */
  function MaskChar(c: char): char {
    if IsAsciiAlnum(c) then c else '_'
  }

  /** "user_" followed by the email with every character outside [A-Za-z0-9] replaced by "_". */
  function UserId(email: string): (id: string)
    ensures |id| == 5 + |email| && id[..5] == "user_"
    ensures forall i :: 0 <= i < |email| ==> id[5 + i] == MaskChar(email[i])
    ensures forall i :: 5 <= i < |id| ==> IsAsciiAlnum(id[i]) || id[i] == '_'
  {
    "user_" + seq(|email|, i requires 0 <= i < |email| => MaskChar(email[i]))
  }

  /** Two emails give the same id exactly when they agree after masking. */
  lemma UserIdSame(a: string, b: string)
    ensures UserId(a) == UserId(b) <==> |a| == |b| && forall i :: 0 <= i < |a| ==> MaskChar(a[i]) == MaskChar(b[i])
  {
    if UserId(a) == UserId(b) {
      forall i | 0 <= i < |a| ensures MaskChar(a[i]) == MaskChar(b[i]) {
        assert UserId(a)[5 + i] == UserId(b)[5 + i];
      }
    }
    if |a| == |b| && forall i :: 0 <= i < |a| ==> MaskChar(a[i]) == MaskChar(b[i]) {
      assert forall i :: 0 <= i < |UserId(a)| ==> UserId(a)[i] == UserId(b)[i];
    }
  }

  /** An email of letters and digits only is kept as it is. */
  lemma UserIdOfAlnum(email: string)
    requires forall i :: 0 <= i < |email| ==> IsAsciiAlnum(email[i])
    ensures UserId(email) == "user_" + email
  {
  }

  /** Different emails can share an id: any two characters outside
      [A-Za-z0-9] at the same place (as in "a.b" and "a_b") give the same one. */
  lemma UserIdCollision(x: string, y: string, c: char, d: char)
    requires !IsAsciiAlnum(c) && !IsAsciiAlnum(d)
    ensures UserId(x + [c] + y) == UserId(x + [d] + y)
  {
    var a, b := x + [c] + y, x + [d] + y;
    forall i | 0 <= i < |a| ensures MaskChar(a[i]) == MaskChar(b[i]) {
      if i != |x| {
        assert a[i] == b[i];
      }
    }
    UserIdSame(a, b);
  }

  /** POST /api/auth/signup. */
  function Signup(body: SignupBody): (r: Reply<Created>)
    ensures r.Fail? <==> !(Truthy(body.name) && Truthy(body.email) && Truthy(body.password))
    ensures r.Fail? ==> r == Fail(400, "Missing required fields")
    ensures r.Ok? ==> r.status == 201 && r.data.message == "User created successfully"
    ensures r.Ok? ==> r.data.user.name == body.name.value && r.data.user.email == body.email.value
    ensures r.Ok? ==> r.data.user.id == UserId(body.email.value)
  {
    if !(Truthy(body.name) && Truthy(body.email) && Truthy(body.password)) then
      Fail(400, "Missing required fields")
    else
      var email := body.email.value;
      Ok(201, Created("User created successfully", NewUser(UserId(email), body.name.value, email)))
  }
}
