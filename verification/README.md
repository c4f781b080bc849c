# Organization backend: a Dafny model

This project models the Organization resource of a small REST backend.
The backend is a Fastify server over MikroORM and SQLite, and it stores
organization records with a name, an optional e-mail, an optional
license, an active flag and two timestamps. The model has one Dafny
module per layer of the resource:

- `Validation`: checks the untrusted JSON body of a create request and
  sanitises it into a creation request.
- `Repository`: the read-only queries over the organization table.
- `Service`: the create path, which rejects a name that is already taken
  and then inserts one row, plus the read-only result envelopes.
- `Entity`: the `Organization` class, with its defaults and the helper
  methods `activate`, `deactivate` and `updateInfo`.
- `Controller`: how each HTTP handler maps the validation result and the
  service outcome to a status code and a JSON envelope.

Supporting modules:

- `Wrappers`: `Option`, and `Outcome`, a value or a thrown error.
- `Text`: ECMAScript whitespace, `trim`, SQLite's ASCII `LOWER`, substring
  search and `join`.
- `JsonValue`: the parsed request body.
- `Dto`: the creation request.

The database table is a `seq<OrganizationRecord>`: rows are values. The
service class holds it as its `table` field, and `CreateOrganization`
appends to it. The entity is a class whose fields its methods overwrite
in place; `Record()` gives the row it persists as. Time is an integer
clock passed in as `now`, and the UUID a new entity receives is passed in
as `id`.

Three behaviours of the code worth knowing:

- A present e-mail that is blank after trimming is accepted. It is not
  rejected as malformed.
- The search handler answers 400 for an empty `name` query parameter as
  well as for a missing one.
- `findByNameContaining` interpolates the term into a `LIKE` pattern
  without escaping it. `%` and `_` in the term therefore act as
  wildcards. The model implements `LIKE` itself and proves that it is a
  case-insensitive substring test only for terms without wildcards.

## Model

| member | source | states |
|---|---|---|
| `Validation.ValidateCreateOrganization` | apps/backend/src/organization/services/organization-validation.service.ts:9-48 | The pushed errors equal the rule-by-rule result `Validate`. `isValid` holds exactly when no error was pushed. A body that is not an object or array yields exactly the invalid-body error. |
| `Validation.EmailPatternIsWellFormedEmail` | apps/backend/src/organization/services/organization-validation.service.ts:27-28 | A string matches `^[^\s@]+@[^\s@]+\.[^\s@]+$` iff it has no whitespace, has a single `@` that is not the first character, and has a `.` in the domain that is neither the domain's first nor its last character. |
| `Validation.NameRule` | apps/backend/src/organization/services/organization-validation.service.ts:18-20 | The name error is reported iff the name is missing, is not a string, or is blank. |
| `Validation.EmailRule` | apps/backend/src/organization/services/organization-validation.service.ts:23-32 | An absent e-mail passes. A present non-string e-mail, null included, is a type error. A string that is blank after trimming passes. Otherwise the trimmed string passes iff it is well formed, and fails with the format error if not. |
| `Validation.ValidIffAllRulesHold` | apps/backend/src/organization/services/organization-validation.service.ts:12-47 | A body validates iff it is an object or array, its name is a non-blank string, its e-mail is absent or a blank or well-formed string, its license is absent or a string, and its active flag is absent or a boolean. |
| `Validation.EachViolationReported` | apps/backend/src/organization/services/organization-validation.service.ts:17-42 | For an object body, each field's message is present iff that field's rule is violated, whatever the other fields hold. Validation does not stop at the first error. |
| `Validation.ErrorsFollowFieldOrder` | apps/backend/src/organization/services/organization-validation.service.ts:17-42 | The errors come in the order name, email, license, active, with at most one per field, so there are at most four. |
| `Validation.ArrayBodyLacksOnlyName` | apps/backend/src/organization/services/organization-validation.service.ts:13-20 | An array passes the body check and then fails with exactly the name error. |
| `Validation.SanitizeCreateOrganization` | apps/backend/src/organization/services/organization-validation.service.ts:50-57 | For a body that validates: the name is the trimmed input name, and it is non-empty and trimmed. E-mail and license are the trimmed inputs, absent when missing or blank. A present e-mail is well formed. `active` is the given boolean, or true when absent. |
| `Text.TrimSpec` | apps/backend/src/organization/services/organization-validation.service.ts:52-54 | `trim` returns a substring of its input with no whitespace at either end. The result is empty iff the input is entirely whitespace. Everything it cuts off before and after that substring is whitespace, so the inner text is kept unchanged. |
| `Repository.FilterSpec` | apps/backend/src/organization/repositories/organization.repository.ts:7-14 | An equality filter keeps every row that satisfies it, as often as the row occurs, and keeps no other row. |
| `Repository.FilterIsSubCollection` | apps/backend/src/organization/repositories/organization.repository.ts:7-62 | Every filtering query returns a sub-multiset of the table. |
| `Repository.FindActive` | apps/backend/src/organization/repositories/organization.repository.ts:7-9 | The result holds exactly the active rows, with their multiplicities. |
| `Repository.FindInactive` | apps/backend/src/organization/repositories/organization.repository.ts:11-14 | The result holds exactly the inactive rows, with their multiplicities. |
| `Repository.ActiveInactivePartition` | apps/backend/src/organization/repositories/organization.repository.ts:7-14 | The active rows and the inactive rows together are the whole table. |
| `Repository.FindByNameContaining` | apps/backend/src/organization/repositories/organization.repository.ts:17-21 | The result holds exactly the rows whose lower-cased name matches `LIKE` against the lower-cased `%term%`. |
| `Repository.LikeIsSubstring` | apps/backend/src/organization/repositories/organization.repository.ts:19 | For a term without `%` or `_`, the pattern `%term%` matches a string iff the term occurs in it. |
| `Repository.SearchIsCaseInsensitiveSubstring` | apps/backend/src/organization/repositories/organization.repository.ts:17-21 | For a term without wildcards, a row is found iff its lower-cased name contains the lower-cased term. |
| `Repository.SearchFindsAcmeCorp` | apps/backend/src/organization/repositories/organization.repository.ts:17-21 | Searching for "acm" finds an organization named "Acme Corp". |
| `Repository.UnderscoreMatchesAnyCharacter` | apps/backend/src/organization/repositories/organization.repository.ts:19 | An unescaped `_` in the term matches any character: "a_c" finds "abc". |
| `Repository.FindFirst` | apps/backend/src/organization/repositories/organization.repository.ts:24-31 | `findOne` returns nothing iff no row satisfies the condition; otherwise it returns a row of the table that satisfies it. |
| `Repository.FindByEmail` | apps/backend/src/organization/repositories/organization.repository.ts:24-26 | Returns null iff no row has exactly that e-mail; otherwise returns a table row with that e-mail. |
| `Repository.FindByLicense` | apps/backend/src/organization/repositories/organization.repository.ts:29-31 | Returns null iff no row has exactly that license; otherwise returns a table row with that license. |
| `Repository.ExistsByName` | apps/backend/src/organization/repositories/organization.repository.ts:34-37 | True iff some row's name equals the argument exactly, case-sensitively. |
| `Repository.ExistsByEmail` | apps/backend/src/organization/repositories/organization.repository.ts:40-43 | True iff some row's e-mail equals the argument exactly. |
| `Repository.GetStats` | apps/backend/src/organization/repositories/organization.repository.ts:46-52 | `total` is the number of rows and `active` the number of active rows. `inactive` is their difference, which equals the number of inactive rows. Hence `active + inactive == total` and `0 <= active <= total`. |
| `Repository.FindCreatedBetween` | apps/backend/src/organization/repositories/organization.repository.ts:55-62 | Keeps exactly the rows with `start <= createdAt <= end`, inclusive at both ends. The result is empty when `start > end`. |
| `Service.OrUndefined` | apps/backend/src/organization/services/organization.service.ts:22-23 | Falling back to undefined for a falsy string drops the empty string and keeps every other value. |
| `Service.NewRecord` | apps/backend/src/organization/services/organization.service.ts:20-29 | The inserted row has the given id and name. An empty e-mail or license is stored as absent. `active` is the override or else true. It is created and updated at `now`. |
| `Service.CreateInTable` | apps/backend/src/organization/services/organization.service.ts:9-33 | A taken name gives the duplicate-name error and leaves the table unchanged. Otherwise exactly one new row is appended and the existing rows are untouched. A create preserves pairwise-distinct names. |
| `Service.AppendFreshNameKeepsNamesDistinct` | apps/backend/src/organization/services/organization.service.ts:14-31 | Appending a row whose name is not taken keeps the names pairwise distinct. |
| `Service.SecondCreateWithSameNameRejected` | apps/backend/src/organization/services/organization.service.ts:14-17 | Creating the same name twice in a row: the second call fails with the duplicate-name error and leaves exactly one row with that name. |
| `Service.OrganizationService.constructor` | apps/backend/src/organization/services/organization.service.ts:7 | The service starts on the given table. |
| `Service.OrganizationService.CreateOrganization` | apps/backend/src/organization/services/organization.service.ts:9-33 | The new table and the returned entity's row are those `CreateInTable` prescribes. A returned entity is fresh. |
| `Service.OrganizationService.GetAllOrganizations` | apps/backend/src/organization/services/organization.service.ts:35-39 | `data` is the whole table and `count` is its length. |
| `Service.OrganizationService.GetStats` | apps/backend/src/organization/services/organization.service.ts:41-45 | The repository's statistics for the table, with `active + inactive == total`. |
| `Service.OrganizationService.GetActiveOrganizations` | apps/backend/src/organization/services/organization.service.ts:47-52 | `data` is the repository's active-row query, so it holds each active row as often as the table does and no other row. `count` is its length. |
| `Service.OrganizationService.SearchOrganizations` | apps/backend/src/organization/services/organization.service.ts:54-59 | `data` is the repository search result, drawn from the table. `count` is its length and `query` echoes the argument. |
| `Entity.Organization.constructor` | apps/backend/src/organization/entities/organization.entity.ts:10-35 | A new organization has the given id, name, e-mail and license. It is active, created and updated at `now`, and its timestamps are ordered. |
| `Entity.Organization.IsActive` | apps/backend/src/organization/entities/organization.entity.ts:38-40 | Reports the `active` field. |
| `Entity.Organization.Deactivate` | apps/backend/src/organization/entities/organization.entity.ts:42-45 | Clears `active` and sets `updatedAt` to `now`. Nothing else changes. |
| `Entity.Organization.Activate` | apps/backend/src/organization/entities/organization.entity.ts:47-50 | Sets `active` and sets `updatedAt` to `now`. Nothing else changes. |
| `Entity.Organization.UpdateInfo` | apps/backend/src/organization/entities/organization.entity.ts:52-57 | Overwrites only the supplied name, e-mail and license, and always sets `updatedAt` to `now`. |
| `Entity.MutatorsKeepIdentity` | apps/backend/src/organization/entities/organization.entity.ts:42-57 | No helper changes `id` or `createdAt`. `updateInfo` keeps `active`. Each helper keeps `createdAt <= updatedAt` when the clock has not gone back. |
| `Entity.SetActiveIdempotent` | apps/backend/src/organization/entities/organization.entity.ts:42-50 | Activating or deactivating twice leaves the same record as doing it once at the later time. |
| `Controller.GetAll` | apps/backend/src/organization/controllers/organization.controller.ts:15-28 | 200 with `success` and the service's list iff the service returned. Otherwise 500 with the handler's fixed message. |
| `Controller.GetStats` | apps/backend/src/organization/controllers/organization.controller.ts:31-44 | 200 with the statistics as `data` iff the service returned. Otherwise 500 with the handler's fixed message. |
| `Controller.GetActive` | apps/backend/src/organization/controllers/organization.controller.ts:47-60 | 200 with the service's list iff the service returned. Otherwise 500 with the handler's fixed message. |
| `Controller.Search` | apps/backend/src/organization/controllers/organization.controller.ts:63-85 | A missing or empty name gives 400 with the fixed message. Otherwise the response is 200 with the result iff the search returned, and 500 if it threw. `success` holds iff the status is 200. |
| `Controller.SearchWithoutNameSkipsService` | apps/backend/src/organization/controllers/organization.controller.ts:67-72 | Without a name, the response does not depend on the search service: no search is performed. |
| `Controller.CreateOutcome` | apps/backend/src/organization/controllers/organization.controller.ts:103-126 | 201 with the created record and the success message iff the service returned. 409 with the message iff an `Error` carrying the duplicate-name message was thrown. 500 with the fixed message for anything else thrown. |
| `Controller.Create` | apps/backend/src/organization/controllers/organization.controller.ts:88-127 | 400 iff the body does not validate, with every error message joined by ", ". Otherwise the response is what the service's outcome on the sanitised body maps to. |
| `Controller.NonObjectBodyMessage` | apps/backend/src/organization/controllers/organization.controller.ts:91-97 | A body that is not an object gets 400 with exactly "Invalid request body". |
| `Controller.HandleCreate` | apps/backend/src/organization/controllers/organization.controller.ts:88-127 | The response is the create decision for this body over the service's table. The table changes only on 201, and then by exactly the created row. The status is always 201, 400 or 409. |

## Left out

- Server bootstrap, health endpoint, CORS, shutdown, ORM configuration,
  route wiring and re-exports (`server.ts`, `mikro-orm.config.ts`,
  `organization.routes.ts`, `index.ts`). These are process and framework
  plumbing with no logic of their own.
- ORM sessions (`em.fork`), `persistAndFlush`, the query builder and SQL
  `count`. They are replaced by reads and one append on an in-memory
  sequence of rows, which cannot fail.
- The ORM's `onCreate`/`onUpdate` timestamp hooks. A create stamps both
  timestamps with the one clock reading `now`.
- UUID generation and `new Date()`. The id and the time are parameters,
  so id uniqueness is not modelled.
- The check-then-insert race between concurrent creates. The model is
  sequential, so distinct names are proved only across sequential
  creates.
- Row order. SQL without `ORDER BY` does not define one. The model
  returns rows in table order, and contracts speak of multisets.
- JavaScript numbers. `Num` carries an integer. The validator rejects
  a number wherever one appears, as a non-string or non-boolean field
  or as a non-object body, so its value never matters.
- A repeated `name` query parameter, which Fastify would deliver as an
  array. The search handler takes the parameter as an optional string.
- `console.error` logging and the Fastify `reply` API. A response is a
  (status, body) value.
- Validation errors. The model carries them as a datatype; `Message`
  gives each one's exact text, and the 400 response joins those texts.
- The failure of the GET handlers' service calls is a parameter: a
  thrown error stands for a storage failure. The create handler's 500
  path is reached only through `Controller.CreateOutcome` and
  `Controller.Create`, because the in-memory table never fails.
- Validation.SanitizeCreateOrganization: requires that the body
  validates. Its only caller calls it only then, and on any other body
  the source would throw a TypeError or pass a non-boolean `active`
  through, which the creation request cannot hold.
