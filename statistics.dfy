/** The read-only endpoints of the user controller: the caller's own test
    statistics (`/me/stats`), the caller's executed tests (`/me/tests`), the
    caller's profile (`/me`), and the administrator's views of one user
    (`/{id}`) and of all users. The repositories are passed in as the lists
    they return; each derived query is a `Select` over such a list. */
module Statistics {
  import opened Records
  import opened Streams

  // ---------------------------------------------------------------------
  // Shared formulas
  // ---------------------------------------------------------------------

  /** The pending count: what is left of the test cases after the executed
      tests, clamped at zero when more tests were executed than exist. */
  function Pending(totalTestCases: nat, executedTests: nat): (pending: nat)
    ensures pending + executedTests >= totalTestCases
    ensures pending == 0 || pending + executedTests == totalTestCases
  {
    var difference := totalTestCases - executedTests;
    if difference < 0 then 0 else difference
  }

  /** A pass rate in percent, taken as an exact rational rather than a
      double; 0.0 when there is nothing to divide by. */
  function PassRate(passed: nat, denominator: nat): (rate: real)
    ensures denominator == 0 ==> rate == 0.0
    ensures denominator > 0 ==> rate * denominator as real == passed as real * 100.0
    ensures passed <= denominator ==> 0.0 <= rate <= 100.0
  {
    if denominator > 0 then passed as real * 100.0 / denominator as real else 0.0
  }

  /** Of two pass rates over the same passed count, the one with the smaller
      denominator is the larger, and strictly so once something passed. */
  lemma RateFallsWithDenominator(passed: nat, smaller: nat, larger: nat)
    requires passed <= smaller <= larger
    ensures PassRate(passed, smaller) >= PassRate(passed, larger)
    ensures passed > 0 && smaller < larger ==> PassRate(passed, smaller) > PassRate(passed, larger)
  {
    if smaller > 0 {
      QuotientFalls(passed as real * 100.0, smaller as real, larger as real);
    }
  }

  lemma QuotientFalls(p: real, s: real, l: real)
    requires 0.0 <= p && 0.0 < s <= l
    ensures p / s >= p / l
    ensures 0.0 < p && s < l ==> p / s > p / l
  {
    var a, b := p / s, p / l;
    assert a * s == p && b * l == p;
    assert b >= 0.0;
    assert (a - b) * s == b * (l - s);
    assert a - b == b * (l - s) / s;
    if 0.0 < p && s < l {
      assert b > 0.0;
      assert b * (l - s) > 0.0;
    }
  }

  /** `testResultRepository.findAll()` filtered on a non-null executor with
      the given id. */
  function ExecutionsOf(results: seq<TestResult>, userId: int): (executed: seq<TestResult>)
    ensures |executed| <= |results|
    ensures forall i :: 0 <= i < |executed| ==> executed[i].executedBy == Some(userId)
  {
    Select(results, ExecutorOf, {Some(userId)})
  }

  /** `testRunRepository.findAll()` filtered on a non-null creator with the
      given id, then counted. */
  function RunsCreatedBy(runs: seq<TestRun>, userId: int): (count: nat)
    ensures count <= |runs|
  {
    |Select(runs, RunCreatorOf, {Some(userId)})|
  }

  /** A record with a null executor or creator is attributed to nobody: the
      counts of all users together, over any list of distinct ids, leave out
      every such record. */
  lemma {:induction false} NullOwnersCountForNobody(results: seq<TestResult>, runs: seq<TestRun>, ids: seq<int>)
    requires Distinct(ids)
    ensures SumExecutions(results, ids) + |Select(results, ExecutorOf, {None})| <= |results|
    ensures SumRuns(runs, ids) + |Select(runs, RunCreatorOf, {None})| <= |runs|
  {
    var keys := SomeIds(ids);
    assert Distinct(keys);
    SumIsGather(results, runs, ids);
    GatherIsSelect(results, ExecutorOf, keys);
    GatherIsSelect(runs, RunCreatorOf, keys);
    var keySet := set k | k in keys;
    assert None !in keySet;
    SelectDisjoint(results, ExecutorOf, {None}, keySet);
    SelectDisjoint(runs, RunCreatorOf, {None}, keySet);
    assert |multiset(Gather(results, ExecutorOf, keys))| == |multiset(Select(results, ExecutorOf, keySet))|;
    assert |multiset(Gather(runs, RunCreatorOf, keys))| == |multiset(Select(runs, RunCreatorOf, keySet))|;
  }

  function SomeIds(ids: seq<int>): (keys: seq<Option<int>>)
    ensures |keys| == |ids|
    ensures forall i :: 0 <= i < |ids| ==> keys[i] == Some(ids[i])
  {
    if ids == [] then [] else [Some(ids[0])] + SomeIds(ids[1..])
  }

  function SumExecutions(results: seq<TestResult>, ids: seq<int>): nat {
    if ids == [] then 0 else |ExecutionsOf(results, ids[0])| + SumExecutions(results, ids[1..])
  }

  function SumRuns(runs: seq<TestRun>, ids: seq<int>): nat {
    if ids == [] then 0 else RunsCreatedBy(runs, ids[0]) + SumRuns(runs, ids[1..])
  }

  lemma {:induction false} SumIsGather(results: seq<TestResult>, runs: seq<TestRun>, ids: seq<int>)
    ensures SumExecutions(results, ids) == |Gather(results, ExecutorOf, SomeIds(ids))|
    ensures SumRuns(runs, ids) == |Gather(runs, RunCreatorOf, SomeIds(ids))|
  {
    if ids != [] {
      SumIsGather(results, runs, ids[1..]);
      assert SomeIds(ids)[1..] == SomeIds(ids[1..]);
    }
  }

  // ---------------------------------------------------------------------
  // GET /me/stats
  // ---------------------------------------------------------------------

  datatype UserStats = UserStats(
    passed: nat,
    failed: nat,
    pending: nat,
    passRate: real,
    suiteCount: nat,
    totalTestCases: nat)

  const ZeroStats := UserStats(0, 0, 0, 0.0, 0, 0)

  /** `testSuiteRepository.findByCreatedById(userId)` */
  function SuitesCreatedBy(suites: seq<TestSuite>, userId: int): (mine: seq<TestSuite>)
    ensures |mine| <= |suites|
    ensures forall i :: 0 <= i < |mine| ==> mine[i].createdById == userId
  {
    Select(suites, SuiteCreatorOf, {userId})
  }

  /** The set of ids of the given suites, as the suite key of a result. */
  function SuiteIds(userSuites: seq<TestSuite>): (ids: set<Option<int>>)
    ensures forall i :: 0 <= i < |userSuites| ==> Some(userSuites[i].id) in ids
    ensures forall k :: k in ids ==> k.Some? && exists i :: 0 <= i < |userSuites| && userSuites[i].id == k.value
  {
    set s | s in userSuites :: Some(s.id)
  }

  function HasCaseList(s: TestSuite): bool { s.testCaseCount.Some? }

  /** The sum of the sizes of test-case lists, over suites that have one. */
  function SumCaseLists(suites: seq<TestSuite>): nat
    requires forall i :: 0 <= i < |suites| ==> suites[i].testCaseCount.Some?
  {
    if suites == [] then 0 else suites[0].testCaseCount.value + SumCaseLists(suites[1..])
  }

  /** The total number of test cases: suites whose list is null are
      filtered out, the sizes of the remaining lists are summed. */
  function TotalTestCases(suites: seq<TestSuite>): (total: nat)
    ensures forall i :: 0 <= i < |suites| && suites[i].testCaseCount.Some? ==> suites[i].testCaseCount.value <= total
    ensures total == 0 <==> forall i :: 0 <= i < |suites| ==> suites[i].testCaseCount in {None, Some(0)}
    ensures total == SumCaseCounts(suites)
  {
    NullListsCountZero(suites);
    assert forall i :: 0 <= i < |suites| ==> (CaseCount(suites[i]) == 0 <==> suites[i].testCaseCount in {None, Some(0)});
    SumCaseLists(Select(suites, HasCaseList, {true}))
  }

  /** The size of a suite's test-case list, a null list counting as empty. */
  function CaseCount(s: TestSuite): nat {
    match s.testCaseCount
    case None => 0
    case Some(n) => n
  }

  /** Reference definition of the total: every suite contributes the size
      of its list, and a suite with a null list contributes 0. */
  function SumCaseCounts(suites: seq<TestSuite>): (total: nat)
    ensures forall i :: 0 <= i < |suites| ==> CaseCount(suites[i]) <= total
    ensures total == 0 <==> forall i :: 0 <= i < |suites| ==> CaseCount(suites[i]) == 0
  {
    if suites == [] then 0 else CaseCount(suites[0]) + SumCaseCounts(suites[1..])
  }

  /** Filtering out null lists before summing is the same as counting a
      null list as 0. */
  lemma {:induction false} NullListsCountZero(suites: seq<TestSuite>)
    ensures SumCaseLists(Select(suites, HasCaseList, {true})) == SumCaseCounts(suites)
  {
    if suites != [] {
      var rest := suites[1..];
      NullListsCountZero(rest);
      var selected := Select(suites, HasCaseList, {true});
      if HasCaseList(suites[0]) {
        assert selected == [suites[0]] + Select(rest, HasCaseList, {true});
        assert selected[1..] == Select(rest, HasCaseList, {true});
      } else {
        assert selected == Select(rest, HasCaseList, {true});
      }
    }
  }

  /** Lines 175-205: the statistics computed from the user's suites and the
      results gathered for them. PASSED and FAILED results are the executed
      tests; any other status is in neither count. */
  function StatsFromResults(userSuites: seq<TestSuite>, allResults: seq<TestResult>): (stats: UserStats)
    ensures stats.passed == |Select(allResults, StatusOf, {Passed})|
    ensures stats.failed == |Select(allResults, StatusOf, {Failed})|
    ensures stats.passed + stats.failed <= |allResults|
    ensures stats.suiteCount == |userSuites|
    ensures stats.totalTestCases == SumCaseCounts(userSuites)
    ensures stats.pending + stats.passed + stats.failed >= stats.totalTestCases
    ensures stats.pending == 0 || stats.pending + stats.passed + stats.failed == stats.totalTestCases
    ensures stats.pending == Pending(stats.totalTestCases, stats.passed + stats.failed)
    ensures 0.0 <= stats.passRate <= 100.0
    ensures stats.passRate == PassRate(stats.passed, stats.passed + stats.failed)
  {
    var passed := |Select(allResults, StatusOf, {Passed})|;
    var failed := |Select(allResults, StatusOf, {Failed})|;
    SelectDisjoint(allResults, StatusOf, {Passed}, {Failed});
    NullListsCountZero(userSuites);
    var totalTestCases := TotalTestCases(userSuites);
    var executedTests := passed + failed;
    UserStats(
      passed,
      failed,
      Pending(totalTestCases, executedTests),
      PassRate(passed, executedTests),
      |userSuites|,
      totalTestCases)
  }

  /** Lines 140-205: a user without suites gets all-zero statistics without
      any result lookup; otherwise the results of the user's suites are
      gathered by suite id and counted. */
  function StatsForSuites(userSuites: seq<TestSuite>, results: seq<TestResult>): (stats: UserStats)
    ensures userSuites == [] ==> stats == ZeroStats
    ensures stats.suiteCount == |userSuites| && stats.totalTestCases == SumCaseCounts(userSuites)
    ensures stats.passed + stats.failed <= |Select(results, SuiteOf, SuiteIds(userSuites))|
    ensures userSuites != [] ==>
              var mine := Select(results, SuiteOf, SuiteIds(userSuites));
              && stats.passed == |Select(mine, StatusOf, {Passed})|
              && stats.failed == |Select(mine, StatusOf, {Failed})|
              && stats.pending == Pending(stats.totalTestCases, stats.passed + stats.failed)
              && stats.passRate == PassRate(stats.passed, stats.passed + stats.failed)
  {
    if userSuites == [] then ZeroStats
    else StatsFromResults(userSuites, Select(results, SuiteOf, SuiteIds(userSuites)))
  }

  /** The short cut for a user without suites gives what the general
      computation would give. */
  lemma ShortCutAgrees(results: seq<TestResult>)
    ensures StatsFromResults([], Select(results, SuiteOf, SuiteIds([]))) == ZeroStats
  {
    SelectMultiset(results, SuiteOf, SuiteIds([]));
    assert multiset(Select(results, SuiteOf, SuiteIds([]))) == multiset{};
  }

  /** Lines 152-161 gather the results suite by suite, enumerating the set
      of suite ids in an unspecified order. Whatever the order, the
      statistics are those of `StatsForSuites`. */
  lemma GatherOrderIrrelevant(userSuites: seq<TestSuite>, results: seq<TestResult>, order: seq<Option<int>>)
    requires userSuites != []
    requires Distinct(order) && (set k | k in order) == SuiteIds(userSuites)
    ensures StatsFromResults(userSuites, Gather(results, SuiteOf, order)) == StatsForSuites(userSuites, results)
  {
    GatherIsSelect(results, SuiteOf, order);
    StatsIgnoreOrder(userSuites, Gather(results, SuiteOf, order), Select(results, SuiteOf, SuiteIds(userSuites)));
  }

  /** The statistics depend on the results only up to their order. */
  lemma StatsIgnoreOrder(userSuites: seq<TestSuite>, a: seq<TestResult>, b: seq<TestResult>)
    requires multiset(a) == multiset(b)
    ensures StatsFromResults(userSuites, a) == StatsFromResults(userSuites, b)
  {
    SelectPermutation(a, b, StatusOf, {Passed});
    SelectPermutation(a, b, StatusOf, {Failed});
  }

  /** With suites but no results, nothing passed or failed, every test case
      is pending and the pass rate is 0. */
  lemma NothingExecutedAllPending(userSuites: seq<TestSuite>, results: seq<TestResult>)
    requires userSuites != []
    requires forall i :: 0 <= i < |results| ==> results[i].suiteId !in SuiteIds(userSuites)
    ensures StatsForSuites(userSuites, results).passed == 0 && StatsForSuites(userSuites, results).failed == 0
    ensures StatsForSuites(userSuites, results).pending == SumCaseCounts(userSuites)
    ensures StatsForSuites(userSuites, results).passRate == 0.0
  {
    var ids := SuiteIds(userSuites);
    var selected := Select(results, SuiteOf, ids);
    SelectMultiset(results, SuiteOf, ids);
    forall x ensures multiset(selected)[x] == 0 {
      if x in results {
        var i :| 0 <= i < |results| && results[i] == x;
      }
    }
    assert multiset(selected) == multiset{};
  }

  /** One suite with three test cases and one PASSED and one FAILED result:
      one test pending and a 50% pass rate. */
  lemma OneSuiteExample(r1: TestResult, r2: TestResult)
    requires r1.suiteId == Some(1) && r1.status == Passed
    requires r2.suiteId == Some(1) && r2.status == Failed
    ensures StatsForSuites([TestSuite(1, 7, Some(3))], [r1, r2]) == UserStats(1, 1, 1, 50.0, 1, 3)
  {
    var suites, rs := [TestSuite(1, 7, Some(3))], [r1, r2];
    assert rs[1..] == [r2] && [r2][1..] == [];
    assert SuiteIds(suites) == {Some(1)};
    assert Select(rs, SuiteOf, {Some(1)}) == rs;
    var stats := StatsFromResults(suites, rs);
    assert stats.passed == 1 by {
      assert Select(rs, StatusOf, {Passed}) == [r1];
    }
    assert stats.failed == 1 by {
      assert Select(rs, StatusOf, {Failed}) == [r2];
    }
    assert stats.totalTestCases == 3 by {
      assert SumCaseCounts(suites) == CaseCount(suites[0]) + SumCaseCounts([]);
    }
    assert stats.passRate == 50.0;
  }

  /** GET /me/stats (lines 128-211): the statistics of the caller's suites;
      an unknown user name throws. */
  function MyStats(users: map<int, User>, suites: seq<TestSuite>, results: seq<TestResult>, username: string): (reply: Reply<UserStats>)
    requires UniqueUsernames(users)
    ensures reply.Thrown? <==> !HasUsername(users, username)
    ensures !reply.NotFound?
    ensures forall id :: id in users && users[id].username == username ==>
              reply == Ok(StatsForSuites(SuitesCreatedBy(suites, users[id].id), results))
  {
    match FindByUsername(users, username)
    case None => Thrown
    case Some(user) => Ok(StatsForSuites(SuitesCreatedBy(suites, user.id), results))
  }

  // ---------------------------------------------------------------------
  // GET /{id}
  // ---------------------------------------------------------------------

  datatype ExecutionStats = ExecutionStats(
    totalTests: nat,
    passedTests: nat,
    failedTests: int,
    testRunsCreated: nat,
    passRate: real)

  datatype UserDetail = UserDetail(user: User, statistics: ExecutionStats)

  /** The status test of line 337: the status constant's name is "PASSED". */
  function HasPassedName(r: TestResult): bool { StatusName(r.status) == "PASSED" }

  /** Lines 331-359: every result the user executed is counted, and each
      one that did not pass counts as failed, whatever its status. */
  function ExecutionStatsOf(results: seq<TestResult>, runs: seq<TestRun>, id: int): (stats: ExecutionStats)
    ensures stats.totalTests == |ExecutionsOf(results, id)|
    ensures stats.passedTests == |Select(ExecutionsOf(results, id), StatusOf, {Passed})|
    ensures stats.failedTests == |Select(ExecutionsOf(results, id), HasPassedName, {false})|
    ensures stats.failedTests >= 0 && stats.passedTests + stats.failedTests == stats.totalTests
    ensures stats.testRunsCreated == RunsCreatedBy(runs, id)
    ensures 0.0 <= stats.passRate <= 100.0
    ensures stats.passRate == PassRate(stats.passedTests, stats.totalTests)
  {
    var executed := ExecutionsOf(results, id);
    var totalTests := |executed|;
    var passedTests := |Select(executed, HasPassedName, {true})|;
    SelectCover(executed, HasPassedName, {true}, {false});
    PassedNameIsPassedStatus(executed);
    ExecutionStats(totalTests, passedTests, totalTests - passedTests, RunsCreatedBy(runs, id), PassRate(passedTests, totalTests))
  }

  /** Testing the status name against "PASSED" selects the same results as
      testing the status against PASSED. */
  lemma PassedNameIsPassedStatus(rs: seq<TestResult>)
    ensures multiset(Select(rs, HasPassedName, {true})) == multiset(Select(rs, StatusOf, {Passed}))
    ensures |Select(rs, HasPassedName, {true})| == |Select(rs, StatusOf, {Passed})|
  {
    var byName, byStatus := Select(rs, HasPassedName, {true}), Select(rs, StatusOf, {Passed});
    SelectMultiset(rs, HasPassedName, {true});
    SelectMultiset(rs, StatusOf, {Passed});
    forall x ensures multiset(byName)[x] == multiset(byStatus)[x] {
      assert HasPassedName(x) <==> StatusOf(x) == Passed;
    }
    assert multiset(byName) == multiset(byStatus);
    assert |multiset(byName)| == |multiset(byStatus)|;
  }

  /** GET /{id} (lines 323-363): 404 for an unknown id, otherwise the user
      with the statistics of the results and runs attributed to that id. */
  function UserById(users: map<int, User>, results: seq<TestResult>, runs: seq<TestRun>, id: int): (reply: Reply<UserDetail>)
    ensures reply.NotFound? <==> id !in users
    ensures !reply.Thrown?
    ensures reply.Ok? ==> reply.value.user == users[id]
    ensures reply.Ok? ==> reply.value.statistics == ExecutionStatsOf(results, runs, id)
  {
    match FindById(users, id)
    case None => NotFound
    case Some(user) => Ok(UserDetail(user, ExecutionStatsOf(results, runs, id)))
  }

  // ---------------------------------------------------------------------
  // GET (all users)
  // ---------------------------------------------------------------------

  datatype UserSummary = UserSummary(
    id: int,
    username: string,
    email: string,
    roles: Option<set<string>>,
    enabled: bool,
    createdAt: int,
    testExecutions: nat,
    testRunsCreated: nat)

  /** One entry of the listing (lines 297-315): the user's columns and the
      numbers of results and runs attributed to the user. */
  function Summary(user: User, results: seq<TestResult>, runs: seq<TestRun>): (summary: UserSummary)
    ensures summary.id == user.id && summary.username == user.username && summary.email == user.email
    ensures summary.roles == user.roles && summary.enabled == user.enabled && summary.createdAt == user.createdAt
    ensures summary.testExecutions <= |results| && summary.testRunsCreated <= |runs|
  {
    UserSummary(user.id, user.username, user.email, user.roles, user.enabled, user.createdAt,
                |ExecutionsOf(results, user.id)|, RunsCreatedBy(runs, user.id))
  }

  /** Lines 290-321: one summary per stored user, keyed by the user's id,
      with the user's own fields and the counts attributed to that user. */
  function AllUsers(users: map<int, User>, results: seq<TestResult>, runs: seq<TestRun>): (summaries: map<int, UserSummary>)
    requires KeyedById(users)
    ensures summaries.Keys == users.Keys
    ensures forall id :: id in summaries ==>
              summaries[id].id == id && summaries[id].username == users[id].username &&
              summaries[id].email == users[id].email && summaries[id].roles == users[id].roles &&
              summaries[id].enabled == users[id].enabled && summaries[id].createdAt == users[id].createdAt &&
              summaries[id].testExecutions == |ExecutionsOf(results, id)| &&
              summaries[id].testRunsCreated == RunsCreatedBy(runs, id)
  {
    map id | id in users :: Summary(users[id], results, runs)
  }

  /** Summed over every user of the listing, in any order, the executions
      and created runs never exceed the stored results and runs, and those
      with a null owner are left out. */
  lemma ListingCountsEachRecordOnce(users: map<int, User>, results: seq<TestResult>, runs: seq<TestRun>, ids: seq<int>)
    requires KeyedById(users)
    requires Distinct(ids) && (set id | id in ids) == users.Keys
    ensures ListedExecutions(AllUsers(users, results, runs), ids) + |Select(results, ExecutorOf, {None})| <= |results|
    ensures ListedRuns(AllUsers(users, results, runs), ids) + |Select(runs, RunCreatorOf, {None})| <= |runs|
  {
    var summaries := AllUsers(users, results, runs);
    ListedIsSum(users, results, runs, ids);
    NullOwnersCountForNobody(results, runs, ids);
  }

  function ListedExecutions(summaries: map<int, UserSummary>, ids: seq<int>): nat
    requires forall i :: 0 <= i < |ids| ==> ids[i] in summaries
  {
    if ids == [] then 0 else summaries[ids[0]].testExecutions + ListedExecutions(summaries, ids[1..])
  }

  function ListedRuns(summaries: map<int, UserSummary>, ids: seq<int>): nat
    requires forall i :: 0 <= i < |ids| ==> ids[i] in summaries
  {
    if ids == [] then 0 else summaries[ids[0]].testRunsCreated + ListedRuns(summaries, ids[1..])
  }

  lemma {:induction false} ListedIsSum(users: map<int, User>, results: seq<TestResult>, runs: seq<TestRun>, ids: seq<int>)
    requires KeyedById(users)
    requires forall i :: 0 <= i < |ids| ==> ids[i] in users
    ensures ListedExecutions(AllUsers(users, results, runs), ids) == SumExecutions(results, ids)
    ensures ListedRuns(AllUsers(users, results, runs), ids) == SumRuns(runs, ids)
  {
    if ids != [] {
      ListedIsSum(users, results, runs, ids[1..]);
    }
  }

  // ---------------------------------------------------------------------
  // GET /me/tests
  // ---------------------------------------------------------------------

  datatype TestView = TestView(testName: string, status: string, duration: int, createdAt: int, retryCount: int)

  datatype MyTestsReport = MyTestsReport(
    username: string,
    totalTests: nat,
    passedTests: nat,
    failedTests: int,
    passRate: real,
    tests: seq<TestView>)

  /** A nullable number reported as 0 when null. */
  function OrZero(v: Option<int>): int {
    match v
    case None => 0
    case Some(n) => n
  }

  /** One entry of the test listing (lines 453-459): null duration and
      retry count are shown as 0. */
  function View(r: TestResult): (view: TestView)
    ensures view.testName == r.testName && view.createdAt == r.createdAt
    ensures view.status == "PASSED" <==> r.status == Passed
    ensures view.duration == if r.duration.None? then 0 else r.duration.value
    ensures view.retryCount == if r.retryCount.None? then 0 else r.retryCount.value
  {
    TestView(r.testName, StatusName(r.status), OrZero(r.duration), r.createdAt, OrZero(r.retryCount))
  }

  /** Lines 452-460, mapping each result to its listing entry. */
  function Views(rs: seq<TestResult>): (views: seq<TestView>)
    ensures |views| == |rs|
    ensures forall i :: 0 <= i < |rs| ==> views[i] == View(rs[i])
  {
    if rs == [] then [] else [View(rs[0])] + Views(rs[1..])
  }

  function ViewStatusOf(v: TestView): string { v.status }

  /** Counting listing entries whose status string is "PASSED" counts the
      PASSED results they were made from. */
  lemma {:induction false} PassedViewsArePassedResults(rs: seq<TestResult>)
    ensures |Select(Views(rs), ViewStatusOf, {"PASSED"})| == |Select(rs, StatusOf, {Passed})|
  {
    if rs != [] {
      PassedViewsArePassedResults(rs[1..]);
      assert Views(rs)[1..] == Views(rs[1..]);
    }
  }

  /** Lines 450-473: the listing of the user's executed results, with null
      durations and retry counts reported as 0, and its counts. */
  function MyTestsOf(results: seq<TestResult>, user: User): (report: MyTestsReport)
    ensures report.username == user.username
    ensures report.totalTests == |report.tests| == |ExecutionsOf(results, user.id)|
    ensures forall i :: 0 <= i < |report.tests| ==>
              var r := ExecutionsOf(results, user.id)[i];
              report.tests[i].testName == r.testName && report.tests[i].createdAt == r.createdAt &&
              report.tests[i].status == StatusName(r.status) &&
              (r.duration.None? ==> report.tests[i].duration == 0) &&
              (r.duration.Some? ==> report.tests[i].duration == r.duration.value) &&
              (r.retryCount.None? ==> report.tests[i].retryCount == 0) &&
              (r.retryCount.Some? ==> report.tests[i].retryCount == r.retryCount.value)
    ensures report.passedTests == |Select(ExecutionsOf(results, user.id), StatusOf, {Passed})|
    ensures report.failedTests >= 0 && report.passedTests + report.failedTests == report.totalTests
    ensures 0.0 <= report.passRate <= 100.0
    ensures report.passRate == PassRate(report.passedTests, report.totalTests)
  {
    var tests := Views(ExecutionsOf(results, user.id));
    var passedCount := |Select(tests, ViewStatusOf, {"PASSED"})|;
    PassedViewsArePassedResults(ExecutionsOf(results, user.id));
    MyTestsReport(user.username, |tests|, passedCount, |tests| - passedCount, PassRate(passedCount, |tests|), tests)
  }

  /** GET /me/tests (lines 445-476); an unknown user name throws. */
  function MyTests(users: map<int, User>, results: seq<TestResult>, username: string): (reply: Reply<MyTestsReport>)
    requires UniqueUsernames(users)
    ensures reply.Thrown? <==> !HasUsername(users, username)
    ensures !reply.NotFound?
    ensures reply.Ok? ==> reply.value.username == username
    ensures forall id :: id in users && users[id].username == username ==> reply == Ok(MyTestsOf(results, users[id]))
  {
    match FindByUsername(users, username)
    case None => Thrown
    case Some(user) => Ok(MyTestsOf(results, user))
  }

  // ---------------------------------------------------------------------
  // GET /me
  // ---------------------------------------------------------------------

  datatype Profile = Profile(
    id: int,
    username: string,
    email: string,
    roles: Option<set<string>>,
    testExecutions: nat,
    testRunsCreated: nat)

  /** GET /me (lines 478-503): the caller's profile with the number of
      results they executed and runs they created; an unknown user name
      throws. */
  function CurrentUser(users: map<int, User>, results: seq<TestResult>, runs: seq<TestRun>, username: string): (reply: Reply<Profile>)
    requires UniqueUsernames(users)
    ensures reply.Thrown? <==> !HasUsername(users, username)
    ensures !reply.NotFound?
    ensures forall id :: id in users && users[id].username == username ==>
              reply.Ok? && reply.value.id == users[id].id && reply.value.username == username &&
              reply.value.email == users[id].email && reply.value.roles == users[id].roles &&
              reply.value.testExecutions == |ExecutionsOf(results, users[id].id)| &&
              reply.value.testRunsCreated == RunsCreatedBy(runs, users[id].id)
  {
    match FindByUsername(users, username)
    case None => Thrown
    case Some(user) =>
      Ok(Profile(user.id, user.username, user.email, user.roles,
                 |ExecutionsOf(results, user.id)|, RunsCreatedBy(runs, user.id)))
  }

  // ---------------------------------------------------------------------
  // Agreement between the endpoints
  // ---------------------------------------------------------------------

  /** For a stored user, the profile, the test listing, the detail view and
      the all-users listing report the same number of executions and of
      created runs, and the test listing and the detail view the same
      passed and failed counts and pass rate. */
  lemma EndpointsAgree(users: map<int, User>, results: seq<TestResult>, runs: seq<TestRun>, id: int)
    requires KeyedById(users) && UniqueUsernames(users) && id in users
    ensures var name := users[id].username;
      var detail := UserById(users, results, runs, id).value.statistics;
      var profile := CurrentUser(users, results, runs, name).value;
      var listing := MyTests(users, results, name).value;
      var summary := AllUsers(users, results, runs)[id];
      && profile.testExecutions == detail.totalTests == listing.totalTests == summary.testExecutions
      && profile.testRunsCreated == detail.testRunsCreated == summary.testRunsCreated
      && listing.passedTests == detail.passedTests
      && listing.failedTests == detail.failedTests
      && listing.passRate == detail.passRate
  {
  }

  /** The two pass-rate formulas over one list of results: `/me/stats`
      divides by the PASSED and FAILED results only, `/{id}` and `/me/tests`
      by all of them. The first is never below the second, and is strictly
      above it once something passed and some result has another status. */
  lemma SuiteRateNotBelowOverallRate(userSuites: seq<TestSuite>, rs: seq<TestResult>)
    ensures StatsFromResults(userSuites, rs).passRate >= PassRate(StatsFromResults(userSuites, rs).passed, |rs|)
    ensures StatsFromResults(userSuites, rs).passed > 0 && (exists i :: 0 <= i < |rs| && rs[i].status.Other?) ==>
              StatsFromResults(userSuites, rs).passRate > PassRate(StatsFromResults(userSuites, rs).passed, |rs|)
  {
    var stats := StatsFromResults(userSuites, rs);
    var passed, executed := stats.passed, stats.passed + stats.failed;
    assert executed <= |rs| && stats.passRate == PassRate(passed, executed);
    RateFallsWithDenominator(passed, executed, |rs|);
    if exists i :: 0 <= i < |rs| && rs[i].status.Other? {
      var i :| 0 <= i < |rs| && rs[i].status.Other?;
      assert executed < |rs| by {
        OtherStatusIsNotExecuted(rs, i);
      }
    }
  }

  /** A result whose status is neither PASSED nor FAILED is counted in
      neither number of `/me/stats`. */
  lemma OtherStatusIsNotExecuted(rs: seq<TestResult>, i: int)
    requires 0 <= i < |rs| && rs[i].status.Other?
    ensures |Select(rs, StatusOf, {Passed})| + |Select(rs, StatusOf, {Failed})| < |rs|
  {
    SelectDisjoint(rs, StatusOf, {Passed}, {Failed});
    assert {Passed} + {Failed} == {Passed, Failed};
    SelectDropsOne(rs, StatusOf, {Passed, Failed}, i);
  }
}
