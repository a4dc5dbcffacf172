# Patient creation: validation, derived address and the two-table transaction

This project models the create path of a small patient-management backend, which is the
`POST /patients` handler. The handler has three parts:

1. **Validation.** It checks the JSON body against two zod object schemas.
   - `addressSchema`: `addressLine1`, `city`, `state` and `zipCode` must be non-empty
     strings. `addressLine2` is optional. `country` defaults to `"USA"`. `addressType` is
     one of home, work, billing or other, and defaults to home.
   - `patientSchema`: `firstName` and `lastName` must be non-empty strings. `middleName`
     is optional. `dateOfBirth` may be a string or a `Date`. `address` is required and
     `secondaryAddress` is optional. `status` is one of inquiry, onboarding, active or
     churned, and defaults to inquiry.

   A body is accepted or rejected as a whole. A rejection reports every violated field,
   not only the first one.
2. **The derived address.** It builds the single-line address for the `patients.address`
   column. The primary address's line 1, line 2, city, state, ZIP code and country are
   taken in that order. Absent or empty components are dropped, and the rest are joined
   with `", "`.
3. **The transaction.** It inserts the patient row, then one primary address row, then a
   non-primary address row when a secondary address was given. It returns the new patient
   row. The whole transaction rolls back if the patient insert returns nothing, or if any
   insert throws.

Modules:

- `Options` (`options.dfy`): `Option` and `Result`.
- `PatientSchema` (`patient_schema.dfy`): the request body as a JSON-like `Value`, and the
  validated `Address` and `PatientInput`.
  - `ValidateAddress` and `ValidatePatient` are total functions. Each returns either the
    normalised value or the list of zod issues, as path plus code.
  - Acceptance is characterised field by field (`AddressAcceptable`, `PatientAcceptable`).
  - A validated value whose date of birth is a valid date, written back as a body,
    validates to itself (`PatientRoundTrip`). The Invalid Date is the exception: handed
    back as a `Date` object, it is refused by `z.date()`.
- `AddressFormat` (`address_format.dfy`): `filter(Boolean)` as `Kept` and `join(', ')` as
  `Join`, together with a `Split` that inverts `Join` for components without a comma.
- `PatientStore` (`patient_store.dfy`): the two tables and their auto-increment counters.
  - A `Store` class holds the tables. `InsertPatient`, `InsertAddress` and `Restore` are
    its steps, and `Create` is the transaction.
  - `Create` is specified against the function `Created` (the store after a commit) and
    `FailureOf` (the error a fault ends in). On every failure the store is exactly the old
    one.
  - `Consistent` is the store invariant that `Create` preserves. Ids increase and stay
    below the counters, every address row references a stored patient, every patient has
    exactly one primary address, and empty optionals are stored as NULL.

Things outside the program are parameters:

- The database's failures: a `DbFault` argument says which step of the
  transaction fails, if any.
- JavaScript's `new Date(string)`: a `parse: string -> Date` argument.

## Model

| member | source | states |
|---|---|---|
| `PatientSchema.ParseAddressType` | server/api/patients/index.post.ts:12 | exactly the four names home, work, billing, other are accepted, and each names its own address type |
| `PatientSchema.ParseStatus` | server/api/patients/index.post.ts:27-29 | exactly the four names inquiry, onboarding, active, churned are accepted, and each names its own status |
| `PatientSchema.RequiredText` | server/api/patients/index.post.ts:6-10 | `z.string().min(1, message)` accepts exactly a non-empty string; a rejection is one issue at the field's path |
| `PatientSchema.OptionalText` | server/api/patients/index.post.ts:7 | `z.string().optional()` accepts exactly an absent field or a string; a rejection is one issue at the field's path |
| `PatientSchema.TextWithDefault` | server/api/patients/index.post.ts:11 | `z.string().default(...)` accepts exactly an absent field or a string; a rejection is one issue at the field's path |
| `PatientSchema.AddressTypeWithDefault` | server/api/patients/index.post.ts:12 | the address-type enum with its default accepts exactly an absent field or one of the four names; a rejection is one issue at the field's path |
| `PatientSchema.StatusWithDefault` | server/api/patients/index.post.ts:27-29 | the status enum with its default accepts exactly an absent field or one of the four names; a rejection is one issue at the field's path |
| `PatientSchema.DateOfBirthField` | server/api/patients/index.post.ts:19-24 | the date union accepts exactly any string or a `Date` that is not the Invalid Date; a rejection is one issue at the field's path |
| `PatientSchema.ValidateAddress` | server/api/patients/index.post.ts:5-13 | the address is accepted iff it is an object whose line 1, city, state and ZIP code are non-empty strings, whose line 2 and country are absent or strings, and whose address type is absent or one of the four names; a rejection carries at least one issue |
| `PatientSchema.AddressAcceptedValues` | server/api/patients/index.post.ts:5-13 | an accepted address keeps the given strings; country becomes "USA" and address type "home" when absent; an explicitly empty country stays empty |
| `PatientSchema.AddressRejectsEmptyRequired` | server/api/patients/index.post.ts:6-10 | an empty line 1, city, state or ZIP code rejects the address, and the issue names that key and carries the schema's message |
| `PatientSchema.AddressRejectsUnknownType` | server/api/patients/index.post.ts:12 | an address type string outside the four names is reported as an enum violation at that key |
| `PatientSchema.AddressIssuesUnderPath` | server/api/patients/index.post.ts:25-26 | every issue found in a nested address lies under the path of that address |
| `PatientSchema.AddressAcceptableByField` | server/api/patients/index.post.ts:5-13 | an object address is acceptable exactly when each of its seven keys meets its own rule |
| `PatientSchema.AddressReportsFailedField` | server/api/patients/index.post.ts:5-13 | for each address key whose rule fails (absent, not a string, empty, or not one of the four type names), the address is rejected with an issue at exactly that key below the address's path |
| `PatientSchema.ValidatePatient` | server/api/patients/index.post.ts:15-30 | the body is accepted iff each field meets its rule: names non-empty, middle name absent or a string, date of birth a string or a valid `Date`, primary address present and acceptable, secondary address absent or acceptable, and status absent or one of the four names |
| `PatientSchema.PatientAcceptedValues` | server/api/patients/index.post.ts:15-30 | an accepted body keeps the given strings; the date of birth is `new Date(s)` for a string and the object itself for a `Date`; status becomes "inquiry" when absent; a secondary address is present iff given; the result is well formed |
| `PatientSchema.PatientRejectsEmptyName` | server/api/patients/index.post.ts:16-17 | an empty first or last name rejects the body with that field's message |
| `PatientSchema.PatientRejectsUnknownStatus` | server/api/patients/index.post.ts:27-29 | a status string outside the four names rejects the body with an enum issue at `status` |
| `PatientSchema.PatientIncludesAddressIssues` | server/api/patients/index.post.ts:25 | every issue of the primary address is among the body's issues |
| `PatientSchema.PatientIncludesSecondaryAddressIssues` | server/api/patients/index.post.ts:26 | every issue of the secondary address is among the body's issues |
| `PatientSchema.PatientRejectsEmptyAddressField` | server/api/patients/index.post.ts:6-10 | an empty required field of the primary address rejects the whole body, with the issue at `address.<key>` |
| `PatientSchema.PatientAcceptableByField` | server/api/patients/index.post.ts:15-30 | an object body is acceptable exactly when each of the seven keys meets its own rule |
| `PatientSchema.PatientReportsEveryFailedField` | server/api/patients/index.post.ts:15-30 | for each key whose rule fails (absent, wrong type, empty, unknown enum name, or a primary or secondary address with an issue of its own), the body is rejected and some issue's path starts with that key |
| `PatientSchema.UnparseableDateAccepted` | server/api/patients/index.post.ts:19-24 | a date string that does not parse is not rejected: the body is accepted with the Invalid Date |
| `PatientSchema.AddressRoundTrip` | server/api/patients/index.post.ts:5-13 | a well-formed address written back as an object validates to itself |
| `PatientSchema.PatientRoundTrip` | server/api/patients/index.post.ts:15-30 | a well-formed validated payload with a valid date, written back as a body, validates to itself; validation is idempotent on its output |
| `AddressFormat.Join` | server/api/patients/index.post.ts:47 | `join(', ')`; its inverse on comma-free parts is proved in `SplitJoin` |
| `AddressFormat.AddressString` | server/api/patients/index.post.ts:40-47 | the value of the `patients.address` column; its content is proved in `KeptComponents`, `AddressStringStartsWithLine1` and `AddressStringSegments` |
| `AddressFormat.Kept` | server/api/patients/index.post.ts:47 | `filter(Boolean)` never keeps an empty component and never lengthens the list |
| `AddressFormat.KeptMembers` | server/api/patients/index.post.ts:47 | a string survives the filter iff it is non-empty and present among the components |
| `AddressFormat.KeptAppend` | server/api/patients/index.post.ts:47 | the filter distributes over concatenation, so kept components keep their relative order |
| `AddressFormat.JoinStartsWithFirst` | server/api/patients/index.post.ts:47 | the joined string begins with its first part |
| `AddressFormat.KeptComponents` | server/api/patients/index.post.ts:40-47 | the derived address takes line 1, line 2, city, state, ZIP code, country in that order, each only when present and non-empty; the secondary address has no part in it |
| `AddressFormat.AddressStringStartsWithLine1` | server/api/patients/index.post.ts:40-41 | for a validated address the derived string is never empty and begins with line 1, as the NOT NULL column needs |
| `AddressFormat.SplitAfterComponent` | server/api/patients/index.post.ts:47 | splitting at ", " peels off a leading comma-free component exactly |
| `AddressFormat.SplitComponent` | server/api/patients/index.post.ts:47 | a comma-free component splits to itself |
| `AddressFormat.SplitJoin` | server/api/patients/index.post.ts:47 | splitting at ", " inverts `join(', ')` on a non-empty list of comma-free components |
| `AddressFormat.AddressStringSegments` | server/api/patients/index.post.ts:40-47 | without commas in the components, the segments of the derived address are exactly the kept components: line 1 first, none empty |
| `AddressFormat.CommaInLine1SplitsIt` | server/api/patients/index.post.ts:40-47 | a comma inside line 1 is not escaped: when line 1 is "p, q" with p comma-free, the first segment of the derived string is p alone, and the string has at least two segments |
| `AddressFormat.CommaInLine1AddsSegment` | server/api/patients/index.post.ts:40-47 | when line 1 is "p, q" and no other component contains a comma, the derived string splits into p, q and then the other kept components, one segment more than there are kept components |
| `AddressFormat.AddressStringDropsEmptyComponents` | server/api/patients/index.post.ts:40-47 | with no line 2 and an empty country the derived address is line 1, city, state and ZIP code joined by ", " |
| `AddressFormat.AddressStringAllComponents` | server/api/patients/index.post.ts:40-47 | with every component present and non-empty, all six appear in order, joined by ", " |
| `PatientStore.NullIfEmpty` | server/api/patients/index.post.ts:57 | `value \|\| null` is NULL exactly for an absent or empty string and otherwise keeps the string |
| `PatientStore.PatientRowFor` | server/api/patients/index.post.ts:52-61 | the values of the patient insert; their content is proved in `NewPatientRowShape` |
| `PatientStore.AddressRowFor` | server/api/patients/index.post.ts:71-81 | the values of one address insert, used for both the primary and the secondary address; their content is proved in `NewAddressRowsShape` |
| `PatientStore.NewAddressRows` | server/api/patients/index.post.ts:68-98 | the address rows one create appends; their number, order and content are proved in `NewAddressRowsShape` |
| `PatientStore.Created` | server/api/patients/index.post.ts:50-101 | the store after a committed create; what it keeps and adds is proved in `CreatedKeepsExistingRows`, `CreatedAddressesOfNewPatient`, `CreatedPatientIsFound` and `CreatePreservesConsistency` |
| `PatientStore.FailureOf` | server/api/patients/index.post.ts:52-66 | the error a fault ends the transaction with; a fault in the secondary insert matters only when a secondary address was given; `Store.Create` is proved against it |
| `PatientStore.NewPatientRowShape` | server/api/patients/index.post.ts:52-62 | the inserted patient row takes names, date of birth and status from the validated input, the derived address from the primary address, NULL for an absent or empty middle name, and any other middle name as given |
| `PatientStore.NewAddressRowsShape` | server/api/patients/index.post.ts:68-98 | one create inserts exactly one primary row, and a second non-primary row iff a secondary address was given; every row points at the new patient and carries its address with an empty or absent line 2 as NULL and country and type as validated |
| `PatientStore.CreatedAddressesOfNewPatient` | server/api/patients/index.post.ts:68-98 | on a consistent store the new patient's address rows are exactly the inserted ones: one or two, exactly one primary |
| `PatientStore.CreatedKeepsExistingRows` | server/api/patients/index.post.ts:50-101 | a committed create keeps every existing row at its position and gives no existing patient a new address |
| `PatientStore.CreatedPatientIsFound` | server/api/patients/index.post.ts:100-103 | the returned row is the one stored under its id, and no earlier row had that id |
| `PatientStore.CreatePreservesConsistency` | server/api/patients/index.post.ts:50-101 | a create with validated input keeps the store invariant: ordered fresh ids, address rows referencing stored patients, exactly one primary address per patient, normalised values |
| `PatientStore.JaneDoeExample` | server/api/patients/index.post.ts:5-98 | a body with only the required fields (Jane Doe, 1 Main St, Springfield, IL, 62704) is accepted with status inquiry, country USA and type home; created in an empty store, it becomes patient 1 with exactly one primary address row whose line 2 is NULL |
| `PatientStore.Store.constructor` | server/db/schema.sqlite.ts:9-17 | an empty database satisfies the store invariant, and both auto-increment keys start at 1 |
| `PatientStore.Store.InsertPatient` | server/api/patients/index.post.ts:52-62 | appends the patient row with the next id and advances that counter; the address table is untouched |
| `PatientStore.Store.InsertAddress` | server/api/patients/index.post.ts:69-81 | appends one address row with the next address id and advances that counter; the patient table is untouched |
| `PatientStore.Store.Restore` | server/api/patients/index.post.ts:50 | rollback returns the store to the state saved when the transaction began |
| `PatientStore.Store.Create` | server/api/patients/index.post.ts:50-103 | with no failure, returns the new patient row and the store becomes `Created` from the old one; on any failure (no row returned, or an insert throws) it returns that error and the store is exactly as before; the store invariant is preserved |
| `PatientStore.Store.HandleCreate` | server/api/patients/index.post.ts:32-103 | a body that fails validation returns its issues and leaves the store untouched; a valid body runs the transaction with the validated input; the store invariant is preserved |

## Left out

- HTTP plumbing is not modelled: `eventHandler`, `readValidatedBody`, the mapping of
  errors to status codes, and the `console.log` of the body.
- The database and ORM (`hub:db`, drizzle's `insert`, `returning` and `transaction`) are
  replaced by in-memory tables. The transaction is modelled as a saved state that is
  restored on failure, not as the engine's rollback.
- Which database step fails, if any, is an input (`DbFault`), not something the model
  decides.
- `new Date(string)` is the parameter `parse`. The model claims nothing about which
  strings parse.
- `new Date(string)` never fails, so an unparseable date string is accepted and becomes
  the Invalid Date (`UnparseableDateAccepted`). The model does not check date strings.
- `createdAt` and `updatedAt` are not modelled. They are database defaults that the create
  path never writes, and the patients table shown in `server/db/schema.sqlite.ts` does not
  declare them.
- The `patient_addresses` table definition is not part of this model's sources. Its
  columns are taken from the values the handler inserts.
- Integer ids are unbounded. The 64-bit range of SQLite integers is not modelled.
- Zod's messages for type errors and the inner errors of the date union are not modelled.
  An issue records its path, its code and, for `.min(1)`, the schema's own message.
- Keys that the schemas do not name are ignored, as zod strips them.
- `Consistent` is an invariant of stores that only this handler has written to. The
  listing, lookup and partial-update handlers are not part of this model, and neither is
  cascade deletion, which no handler exposes.
- Concurrency is not modelled: each request runs alone against the store.
