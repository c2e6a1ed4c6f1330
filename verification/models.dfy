/** The record shapes of the service (src/models.py). */
module Models {
  import opened Wrappers
  import Jose

  /** The closed set of roles; the Python enum is a `str` enum. */
  datatype UserRole = Student | Teacher | Admin {

    /** The enum's string value, which is also what a token's `role` claim carries. */
    function Value(): (v: string)
      ensures |v| > 0
    {
      match this
      case Student => "student"
      case Teacher => "teacher"
      case Admin => "admin"
    }
  }

  /** Every role there is. */
  const AllRoles: set<UserRole> := {Student, Teacher, Admin}

  /** Inverse of `UserRole.Value`: how a role string is read back. */
  function ParseRole(s: string): (r: Option<UserRole>)
    ensures r.Some? ==> r.value.Value() == s
  {
    if s == "student" then Some(Student)
    else if s == "teacher" then Some(Teacher)
    else if s == "admin" then Some(Admin)
    else None
  }

  /** There are exactly three roles, each with a distinct value that reads back to itself. */
  lemma RolesClosed(role: UserRole)
    ensures role in AllRoles && |AllRoles| == 3
    ensures ParseRole(role.Value()) == Some(role)
  {
  }

  /** The registration request; `role` may be omitted and then means a student. */
  datatype UserCreate = UserCreate(email: string, password: string, fullName: string, role: UserRole := Student)

  /** The login request. */
  datatype UserLogin = UserLogin(email: string, password: string)

  /** The public view of a user: it has no password field at all. */
  datatype User = User(email: string, fullName: string, role: UserRole, isActive: bool := true)

  /** The login response; the access token is a signed JWT. */
  datatype Token = Token(accessToken: Jose.Jwt, tokenType: string)

  /** The claims read back from a token; both may be absent. */
  datatype TokenData = TokenData(email: Option<string> := None, role: Option<string> := None)

  /** Omitted fields take the defaults the record declarations give them. */
  lemma ModelDefaults(email: string, password: string, fullName: string, role: UserRole)
    ensures UserCreate(email, password, fullName).role == Student
    ensures User(email, fullName, role).isActive
    ensures TokenData().email.None? && TokenData().role.None?
  {
  }
}
