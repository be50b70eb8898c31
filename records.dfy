/** The record shapes the controllers read and write, the foreign functions
    they call (id syntax check, password hashing, token signing), and the
    ownership and role rules shared by every handler. */
module Records {
  import opened Values

  /** A chapter. `grade` and `subject` are free text, not references. */
  datatype Chapter = Chapter(
    grade: string,
    subject: string,
    chapterName: string,
    bookName: Option<string>,
    createdBy: Id)

  /** A question; the four taxonomy fields reference other collections. */
  datatype Question = Question(
    question: string,
    answer: Option<string>,
    grade: Id,
    subject: Id,
    chapter: Id,
    questionType: Id,
    description: string,
    createdBy: Id)

  /** A grade and the subjects taught in it, in the order given. */
  datatype Grade = Grade(grade: string, subjects: seq<Id>)

  datatype Subject = Subject(name: string, description: string)

  datatype QuestionType = QuestionType(name: string, description: string)

  /** A user account; `password` holds the hash, never the plain text. */
  datatype User = User(
    firstName: Option<string>,
    lastName: Option<string>,
    email: string,
    password: string,
    role: string,
    accessToken: Option<string>)

  /** A user as a query with a field projection returns it: never the
      password, and the access token only when it was not projected away. */
  datatype Profile = Profile(
    id: Id,
    firstName: Option<string>,
    lastName: Option<string>,
    email: string,
    role: string,
    accessToken: Option<string>)

  /** `findById(id).select("-password ...")`; `withToken` is false when the
      projection also drops `accessToken`. */
  function ProfileOf(id: Id, u: User, withToken: bool): (p: Profile)
    ensures p.id == id && p.email == u.email && p.role == u.role
    ensures p.firstName == u.firstName && p.lastName == u.lastName
    ensures p.accessToken == (if withToken then u.accessToken else None)
  {
    Profile(id, u.firstName, u.lastName, u.email, u.role, if withToken then u.accessToken else None)
  }

  /** What `jwt.verify` does with a token: yields the `_id` claim of its
      payload, yields a payload without an `_id` claim, or throws an error
      with a message. */
  datatype Decoded = Verified(subject: string) | VerifiedWithoutId | Rejected(message: string)

  /** The foreign functions the handlers call, held abstract:
      `mongoose.Types.ObjectId.isValid`, the message of the cast error
      `findById` throws on a malformed id, bcrypt's hash and compare, and
      `jwt.sign({ _id, email })` / `jwt.verify` under the server secret. */
  datatype Env = Env(
    validId: string -> bool,
    castMessage: string -> string,
    hash: string -> string,
    passwordMatches: (string, string) -> bool,
    sign: (Id, string) -> string,
    verify: string -> Decoded)

  const NotAuthenticatedMessage := "User not authenticated"
  const AdminRole := "admin"
  const DefaultRole := "user"

  predicate IsAdmin(p: Profile)
  {
    p.role == AdminRole
  }

  /** `!req.user || !req.user._id` fails: no user is attached to the request. */
  predicate Authenticated(requester: Option<Profile>)
  {
    requester.Some? && requester.value.id != ""
  }

  /** The ownership rule of every chapter and question handler: the
      requester created the record or is an admin. */
  predicate MayModify(createdBy: Id, p: Profile)
  {
    createdBy == p.id || IsAdmin(p)
  }

  /** The natural keys the controllers check before writing. */
  function ChapterTuple(c: Chapter): (string, string, string)
  {
    (c.grade, c.subject, c.chapterName)
  }

  function ChapterKey(c: Chapter): (string, string, string, Id)
  {
    (c.grade, c.subject, c.chapterName, c.createdBy)
  }

  function QuestionText(q: Question): string
  {
    q.question
  }

  function GradeName(g: Grade): string
  {
    g.grade
  }

  function SubjectName(s: Subject): string
  {
    s.name
  }

  function QuestionTypeName(t: QuestionType): string
  {
    t.name
  }

  function UserEmail(u: User): string
  {
    u.email
  }
}
