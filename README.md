# User statistics and role administration of the test-framework API

This project models the user controller of a test-framework backend. The controller serves the `/api/users` endpoints. It has two parts.

- **Statistics** (read only). For the caller, `/me/stats` reports passed, failed and pending tests, a pass rate, and the number of suites and test cases. `/me/tests` lists the tests the caller executed, and `/me` returns the caller's profile. For an administrator, `/{id}` shows one user with their execution statistics, and the bare path lists every user with their counts.
- **Role administration**. `PUT /{id}/promote` adds `ROLE_ADMIN` to a user's roles. `PUT /{id}/demote` overwrites the roles with `{ROLE_USER}`.

The repositories are inputs to the model:

- the user table is a `map<int, User>` from id to row;
- suites, results and runs are the lists their `findAll` returns;
- every derived query (`findByCreatedById`, `findByTestSuiteId`, a stream `filter(...).count()`) is `Streams.Select`, a filter on a key.

Nullable columns are `Option`. Pass rates are exact `real`s, not doubles. An endpoint's answer is a `Reply`: `Ok(body)`, `NotFound` (HTTP 404), or `Thrown`. `Thrown` stands for the exception that the `/me` endpoints raise when the caller's user name is not in the table.

Files:

- `records.dfy`: the entities and the lookups by id and by user name.
- `streams.dfy`: filter and flatMap on lists, with their algebra.
- `statistics.dfy`: the five read endpoints and the lemmas about them.
- `role_admin.dfy`: the class `UserRepository` with the promote and demote methods.

For an unknown user name, `getMyStats` throws a `RuntimeException` (line 132), so `MyStats` answers `Thrown`, not `NotFound`.

## Model

| member | source | states |
|---|---|---|
| `Records.StatusName` | src/main/java/com/example/test_framework_api/controller/UserController.java:455 | a status's name is "PASSED" exactly for PASSED and "FAILED" exactly for FAILED |
| `Records.FindById` | src/main/java/com/example/test_framework_api/controller/UserController.java:326-329 | a user is found exactly when the id is stored, and it is that row |
| `Records.FindByUsername` | src/main/java/com/example/test_framework_api/controller/UserController.java:130-132 | a user is found exactly when some row has that user name, and it is that row |
| `Streams.Select` | src/main/java/com/example/test_framework_api/controller/UserController.java:176-178 | a filter keeps at most the input's elements, and every kept element has a selected key |
| `Streams.SelectMultiset` | src/main/java/com/example/test_framework_api/controller/UserController.java:176-182 | up to order, a filter keeps each element with its multiplicity exactly when its key is selected |
| `Streams.Gather` | src/main/java/com/example/test_framework_api/controller/UserController.java:159-161 | a flatMap of per-key filters keeps only elements whose key is one of the enumerated keys |
| `Streams.SelectDisjoint` | src/main/java/com/example/test_framework_api/controller/UserController.java:176-182 | filters on disjoint keys (PASSED, FAILED) count nothing twice and together count at most the input |
| `Streams.SelectCover` | src/main/java/com/example/test_framework_api/controller/UserController.java:335-340 | filters on two disjoint key sets that cover every element partition the input |
| `Streams.SelectPermutation` | src/main/java/com/example/test_framework_api/controller/UserController.java:159-161 | reordering a list changes neither what a filter keeps nor how many |
| `Streams.SelectConcat` | src/main/java/com/example/test_framework_api/controller/UserController.java:159-161 | filtering a concatenation is concatenating the filtered parts |
| `Streams.GatherIsSelect` | src/main/java/com/example/test_framework_api/controller/UserController.java:152-161 | a flatMap of per-key queries over distinct keys gathers each element once, the same multiset as one filter on the key set |
| `Streams.SelectCountsPositions` | src/main/java/com/example/test_framework_api/controller/UserController.java:306-308 | a filter's count equals the number of list positions whose element has a selected key |
| `Streams.SelectDropsOne` | src/main/java/com/example/test_framework_api/controller/UserController.java:176-182 | a filter that leaves out some element of the list keeps strictly fewer elements than the list |
| `Statistics.Pending` | src/main/java/com/example/test_framework_api/controller/UserController.java:190-194 | pending is never negative; it is total minus executed, or 0 when more were executed than exist |
| `Statistics.PassRate` | src/main/java/com/example/test_framework_api/controller/UserController.java:196-197 | the rate is 0 without a denominator, otherwise rate × denominator = passed × 100, and it lies in [0, 100] when passed ≤ denominator |
| `Statistics.RateFallsWithDenominator` | src/main/java/com/example/test_framework_api/controller/UserController.java:359 | for the same passed count, a larger denominator never gives a larger rate, and gives a strictly smaller one once something passed; a zero denominator included |
| `Statistics.ExecutionsOf` | src/main/java/com/example/test_framework_api/controller/UserController.java:331-333 | the results whose non-null executor has the given id: no more than all results, each executed by that user (the same filter is used at lines 306-308, 450-451 and 483-485) |
| `Statistics.RunsCreatedBy` | src/main/java/com/example/test_framework_api/controller/UserController.java:342-344 | the number of runs whose non-null creator has the given id is at most the number of runs (the same filter is used at lines 311-313 and 487-489) |
| `Statistics.SuiteRateNotBelowOverallRate` | src/main/java/com/example/test_framework_api/controller/UserController.java:197 | on one list of results, the `/me/stats` rate (over PASSED and FAILED only) is at least the rate over all of them, and strictly greater once something passed and some result has another status |
| `Statistics.OtherStatusIsNotExecuted` | src/main/java/com/example/test_framework_api/controller/UserController.java:176-182 | a result whose status is neither PASSED nor FAILED makes passed + failed strictly less than the number of results |
| `Statistics.NullOwnersCountForNobody` | src/main/java/com/example/test_framework_api/controller/UserController.java:305-314 | summed over distinct users, execution and run counts plus the null-owner records never exceed the stored records |
| `Statistics.SuitesCreatedBy` | src/main/java/com/example/test_framework_api/controller/UserController.java:137 | the user's suites are at most all suites, and each was created by that user |
| `Statistics.SuiteIds` | src/main/java/com/example/test_framework_api/controller/UserController.java:152-154 | every suite's id is in the set, and every member of the set is the non-null id of one of the suites |
| `Statistics.SumCaseCounts` | src/main/java/com/example/test_framework_api/controller/UserController.java:184-188 | each suite's test-case count is at most the total, and the total is 0 exactly when every count is 0 |
| `Statistics.TotalTestCases` | src/main/java/com/example/test_framework_api/controller/UserController.java:184-188 | the total equals the reference sum in which a null list counts 0; every non-null list size is at most the total, and the total is 0 exactly when every list is null or empty |
| `Statistics.NullListsCountZero` | src/main/java/com/example/test_framework_api/controller/UserController.java:185-188 | filtering out null lists and summing equals counting a null list as 0 |
| `Statistics.StatsFromResults` | src/main/java/com/example/test_framework_api/controller/UserController.java:175-205 | passed counts the PASSED results and failed the FAILED ones, together at most the results; pending is the clamp of total − executed; the rate divides by passed + failed and lies in [0, 100]; suite count and test-case total of the suites |
| `Statistics.StatsForSuites` | src/main/java/com/example/test_framework_api/controller/UserController.java:140-205 | no suites gives all-zero stats with no result lookup; otherwise, over the results whose suite id is one of the user's, passed counts PASSED, failed counts FAILED, pending is the clamp of total − executed and the rate divides by passed + failed; suite count and test-case total are the user's suites' |
| `Statistics.ShortCutAgrees` | src/main/java/com/example/test_framework_api/controller/UserController.java:140-149 | the early all-zero answer equals what the general computation gives for no suites |
| `Statistics.GatherOrderIrrelevant` | src/main/java/com/example/test_framework_api/controller/UserController.java:151-161 | gathering results suite by suite in any order of the suite-id set gives the same statistics |
| `Statistics.StatsIgnoreOrder` | src/main/java/com/example/test_framework_api/controller/UserController.java:176-182 | the statistics depend on the gathered results only up to their order |
| `Statistics.NothingExecutedAllPending` | src/main/java/com/example/test_framework_api/controller/UserController.java:165-197 | with suites but no results for them, nothing passed or failed, every test case is pending and the pass rate is 0 |
| `Statistics.OneSuiteExample` | src/main/java/com/example/test_framework_api/controller/UserController.java:175-205 | one suite of 3 cases with one PASSED and one FAILED result gives 1 passed, 1 failed, 1 pending, 50.0 |
| `Statistics.MyStats` | src/main/java/com/example/test_framework_api/controller/UserController.java:128-211 | throws exactly when the user name is unknown, never answers 404, and otherwise gives the stats of that user's suites |
| `Statistics.ExecutionStatsOf` | src/main/java/com/example/test_framework_api/controller/UserController.java:331-359 | total counts the user's executions; failed = total − passed ≥ 0 counts every non-passed status; the rate divides by the total |
| `Statistics.PassedNameIsPassedStatus` | src/main/java/com/example/test_framework_api/controller/UserController.java:335-338 | testing the status name against "PASSED" selects the same results as testing the status |
| `Statistics.UserById` | src/main/java/com/example/test_framework_api/controller/UserController.java:323-363 | 404 exactly for an unknown id; otherwise the stored row with the statistics of that id |
| `Statistics.AllUsers` | src/main/java/com/example/test_framework_api/controller/UserController.java:290-321 | one summary per stored user, with that user's id, user name, email, roles, enabled flag and creation time, and the numbers of executions and created runs attributed to that id |
| `Statistics.Summary` | src/main/java/com/example/test_framework_api/controller/UserController.java:297-315 | one listing entry carries the user's id, user name, email, roles, enabled flag and creation time, and counts no more than the stored results and runs |
| `Statistics.ListingCountsEachRecordOnce` | src/main/java/com/example/test_framework_api/controller/UserController.java:305-314 | over all listed users, summed executions and runs plus the null-owner records never exceed the stored records |
| `Statistics.Views` | src/main/java/com/example/test_framework_api/controller/UserController.java:450-461 | one listing entry per result, in order |
| `Statistics.View` | src/main/java/com/example/test_framework_api/controller/UserController.java:453-459 | an entry keeps the test name and creation time, shows PASSED exactly for a PASSED result, and shows a null duration or retry count as 0 |
| `Statistics.PassedViewsArePassedResults` | src/main/java/com/example/test_framework_api/controller/UserController.java:463-465 | counting entries whose status string is "PASSED" counts the PASSED results |
| `Statistics.MyTestsOf` | src/main/java/com/example/test_framework_api/controller/UserController.java:450-473 | one entry per execution of the user, in order, with its test name, creation time and status name; null duration and retry count shown as 0; passed counts PASSED; passed + failed = total; the rate divides by the total |
| `Statistics.MyTests` | src/main/java/com/example/test_framework_api/controller/UserController.java:445-476 | throws exactly when the user name is unknown, never answers 404, and otherwise gives the report of that user's executions under that user name |
| `Statistics.CurrentUser` | src/main/java/com/example/test_framework_api/controller/UserController.java:478-503 | throws exactly when the user name is unknown, otherwise that user's id, user name, email, roles, execution count and run count |
| `Statistics.EndpointsAgree` | src/main/java/com/example/test_framework_api/controller/UserController.java:483-489 | for a stored user, `/me`, `/me/tests`, `/{id}` and the listing report the same counts, and `/me/tests` and `/{id}` the same rate |
| `RoleAdmin.Promoted` | src/main/java/com/example/test_framework_api/controller/UserController.java:373-378 | promotion keeps every old role (null read as empty) and adds ROLE_ADMIN, and nothing else |
| `RoleAdmin.PromoteIdempotent` | src/main/java/com/example/test_framework_api/controller/UserController.java:373-379 | promoting twice gives the roles of promoting once |
| `RoleAdmin.PromoteKeepsAdminRoles` | src/main/java/com/example/test_framework_api/controller/UserController.java:373-377 | promoting an administrator leaves the roles as they were |
| `RoleAdmin.UserRepository.Save` | src/main/java/com/example/test_framework_api/controller/UserController.java:379 | the row is written under its id and the write is logged |
| `RoleAdmin.UserRepository.PromoteToAdmin` | src/main/java/com/example/test_framework_api/controller/UserController.java:365-388 | a missing id gives 404 with no write; otherwise only that user's roles become the promoted roles, one save, and the reply carries user name and roles |
| `RoleAdmin.UserRepository.DemoteToUser` | src/main/java/com/example/test_framework_api/controller/UserController.java:390-410 | a missing id gives 404 with no write; otherwise only that user's roles become exactly {ROLE_USER}, one save |
| `RoleAdmin.PromoteThenDemote` | src/main/java/com/example/test_framework_api/controller/UserController.java:365-410 | demote after promote leaves exactly {ROLE_USER}, other users and fields untouched, two writes |
| `RoleAdmin.MissingIdWritesNothing` | src/main/java/com/example/test_framework_api/controller/UserController.java:367-395 | promote and demote of a missing id change no row and write nothing |

## Left out

- Authentication, the `@PreAuthorize` admin checks, building the HTTP response, JSON assembly and logging are framework calls. The model keeps only the ok / 404 / thrown outcome.
- JPA repositories and transactions are not modelled; `save` is a map update plus an entry in a write log. Concurrent promote and demote of one user, which race at the database (last write wins), are not modelled.
- The disabled copies of `getMyStats` and `getMyTests` (lines 38-126, 213-287, 412-443) are not modelled; they are not compiled.
- The `/me/stats` set of suite ids is streamed in an unspecified order. `StatsForSuites` filters on the set directly, and `GatherOrderIrrelevant` shows that any order gives the same answer. The order of the results inside `allResults` is therefore not modelled.
- `AllUsers` returns a map keyed by user id. The order of the listing follows `findAll` and is not modelled.
- `RoleAdmin.UserRepository.PromoteToAdmin` treats the role set as a value. Promotion in the source adds to the user's existing set object in place; any other holder of that object would see the change too. This aliasing is not modelled.
- Pass rates are exact rationals. Rounding to a double is not modelled.
- Counts are unbounded `nat`s. The source's `long` counts cannot overflow for lists that fit in memory.
- A result with a null status is not modelled. `getUserById` and `getMyTests` would throw a `NullPointerException` on one; `getMyStats` would count it in neither PASSED nor FAILED.
- The test-status enumeration is not part of this model. Its constants other than PASSED and FAILED are `Other(name)` with a name different from both. Its `toString` is taken to return the constant's name.
- `createdAt` timestamps are carried through as opaque integers.
- `Records.FindByUsername`, and with it `MyStats`, `MyTests` and `CurrentUser`, requires user names to be unique, which the user table's unique constraint is taken to guarantee. With duplicate names the repository lookup would throw rather than pick one row; that case is not modelled.
- `Statistics.RunsCreatedBy`: its contract bounds the count by the runs; which runs are counted is stated through `NullOwnersCountForNobody` and `SelectCountsPositions` on the underlying filter, not on the count itself.
- `RabbitMQConfig.java` and the front end (`App.jsx`, `LandingPage.jsx`, `Dashboard.jsx`) are not part of this model. The first is broker configuration; the others are UI.
