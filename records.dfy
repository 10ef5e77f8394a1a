/** The records the user controller reads and writes: users, test suites,
    test results and test runs, with the repository lookups by primary key
    and by user name, and the reply an endpoint sends back. */
module Records {

  /** A reference or boxed value that may be null. */
  datatype Option<+T> = None | Some(value: T)

  /** What an endpoint answers: a body, a 404 with an empty body, or an
      exception thrown while resolving the caller's own user record. */
  datatype Reply<+T> = Ok(value: T) | NotFound | Thrown

  /** Constant names of the status enumeration besides PASSED and FAILED;
      enumeration constants have distinct names. */
  type OtherStatusName = n: string | n != "PASSED" && n != "FAILED" witness "SKIPPED"

  datatype Status = Passed | Failed | Other(name: OtherStatusName)

  /** The enumeration constant's name, which is also what `toString` gives. */
  function StatusName(s: Status): (n: string)
    ensures n == "PASSED" <==> s == Passed
    ensures n == "FAILED" <==> s == Failed
  {
    match s
    case Passed => "PASSED"
    case Failed => "FAILED"
    case Other(name) => name
  }

  /** A user; `roles` is null until a role set has been attached. */
  datatype User = User(
    id: int,
    username: string,
    email: string,
    roles: Option<set<string>>,
    enabled: bool,
    createdAt: int)

  /** A test suite with its creator's id and the size of its test-case
      list, which may be null. */
  datatype TestSuite = TestSuite(id: int, createdById: int, testCaseCount: Option<nat>)

  /** One executed test: the suite it belongs to, the user who executed it
      (nullable), its status and the fields the per-user listing reports. */
  datatype TestResult = TestResult(
    suiteId: Option<int>,
    executedBy: Option<int>,
    status: Status,
    testName: string,
    duration: Option<int>,
    retryCount: Option<int>,
    createdAt: int)

  /** A test run with its creator's id (nullable). */
  datatype TestRun = TestRun(id: int, createdBy: Option<int>)

  // Keys the repositories' derived queries filter on.
  function SuiteCreatorOf(s: TestSuite): int { s.createdById }
  function SuiteOf(r: TestResult): Option<int> { r.suiteId }
  function ExecutorOf(r: TestResult): Option<int> { r.executedBy }
  function StatusOf(r: TestResult): Status { r.status }
  function RunCreatorOf(r: TestRun): Option<int> { r.createdBy }

  /** The user table: every row is stored under its own id. */
  ghost predicate KeyedById(users: map<int, User>) {
    forall id :: id in users ==> users[id].id == id
  }

  /** The unique constraint on the username column. */
  ghost predicate UniqueUsernames(users: map<int, User>) {
    forall i, j :: i in users && j in users && users[i].username == users[j].username ==> i == j
  }

  ghost predicate HasUsername(users: map<int, User>, username: string) {
    exists id :: id in users && users[id].username == username
  }

  /** `userRepository.findById(id)` */
  function FindById(users: map<int, User>, id: int): (found: Option<User>)
    ensures found.Some? <==> id in users
    ensures found.Some? ==> found.value == users[id]
  {
    if id in users then Some(users[id]) else None
  }

  /** `userRepository.findByUsername(username)` */
  function FindByUsername(users: map<int, User>, username: string): (found: Option<User>)
    requires UniqueUsernames(users)
    ensures found.Some? <==> HasUsername(users, username)
    ensures found.Some? ==> found.value.username == username
    ensures forall id :: id in users && users[id].username == username ==> found == Some(users[id])
  {
    if exists id :: id in users && users[id].username == username then
      var id :| id in users && users[id].username == username;
      Some(users[id])
    else
      None
  }
}
