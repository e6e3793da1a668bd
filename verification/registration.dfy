/** The check `registerUser` makes before sending a registration
    (`src/features/auth/api.ts`): the email is trimmed and lower-cased, and
    only student addresses are accepted. The request itself is returned, not
    sent.
 */
module Registration {
  import opened Wrappers
  import opened Text

  /** Profile picture. */
  datatype Avatar = Avatar(url: string, alt: Option<string>)

  /** `RegisterInput`. */
  datatype RegisterInput = RegisterInput(
    name: string,
    email: string,
    password: string,
    venueManager: Option<bool>,
    avatar: Option<Avatar>)

  /** The request `registerUser` would issue. */
  datatype Request = Request(path: string, httpMethod: string, body: RegisterInput)

  /** The only accepted email domain. */
  const StudentSuffix := "@stud.noroff.no"

  /** The error thrown for any other address. */
  const StudentOnlyMessage := "Email must end with @stud.noroff.no (Noroff student email)."

  /** `email.trim().toLowerCase()`. */
  function NormalizeEmail(email: string): (r: string)
    ensures |r| == |Trim(email)|
    ensures forall i :: 0 <= i < |r| ==> r[i] == LowerChar(Trim(email)[i])
    ensures IsTrimmed(r)
    ensures forall i :: 0 <= i < |r| ==> !('A' <= r[i] <= 'Z')
  {
    var t := Trim(email);
    ToLowerKeepsTrimmed(t);
    ToLower(t)
  }

  /** Normalising an already normalised address changes nothing. */
  lemma NormalizeIdempotent(email: string)
    ensures NormalizeEmail(NormalizeEmail(email)) == NormalizeEmail(email)
  {
    var n := NormalizeEmail(email);
    TrimOfTrimmed(n);
    assert ToLower(n) == n;
  }

  /** `registerUser`: an error unless the normalised email ends with the
      student domain, otherwise a POST to `/auth/register` with the input
      whose only change is the normalised email. */
  function RegisterUser(input: RegisterInput): (r: Result<Request, string>)
    ensures r.Failure? <==> !EndsWith(NormalizeEmail(input.email), StudentSuffix)
    ensures r.Failure? ==> r.error == StudentOnlyMessage
    ensures r.Success? ==>
      && r.value.path == "/auth/register" && r.value.httpMethod == "POST"
      && r.value.body.email == NormalizeEmail(input.email)
      && r.value.body.(email := input.email) == input
  {
    var email := NormalizeEmail(input.email);
    if !EndsWith(email, StudentSuffix) then Failure(StudentOnlyMessage)
    else Success(Request("/auth/register", "POST", input.(email := email)))
  }

  /** Sending the accepted body through again produces the same request:
      the check is idempotent. */
  lemma RegisterIdempotent(input: RegisterInput)
    requires RegisterUser(input).Success?
    ensures RegisterUser(RegisterUser(input).value.body) == RegisterUser(input)
  {
    NormalizeIdempotent(input.email);
  }

  /** Only the normalised address matters: two inputs that differ only in
      surrounding whitespace or in the case of the address get the same
      outcome and the same request. */
  lemma CaseAndSpaceInsensitive(input: RegisterInput, other: string)
    ensures NormalizeEmail(other) == NormalizeEmail(input.email) ==>
      RegisterUser(input.(email := other)) == RegisterUser(input)
  {
  }
}
