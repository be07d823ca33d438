# Physical, legal and goods registry — a Dafny model

The service keeps three tables: natural persons (`PhysicalPerson`), legal
entities (`LegalPerson`) and goods (`Good`). Each table is keyed by an integer
id that the store assigns. Six request handlers read and change the tables:
a list/create view and a retrieve/update/delete view for each kind. There is
also one read-only query, `check_owner_exists`. It decides whether a
candidate owner string is the `cpf` of a stored natural person or the `cnpj`
of a stored legal entity.

This project models that core as a state machine over finite maps:

- `models.dfy`, module `Models`: the three record shapes and their declared
  constraints. These are the maximum lengths, the `good_type` choice set and
  `unique` on `cpf` and `cnpj`. The module also holds the lemmas that the
  save and delete paths rely on: uniqueness is preserved, and `cpf` is a
  natural key.
- `validation.dfy`, module `Validation`: what the model serializers'
  `is_valid()` checks, and the per-field errors they report. The payload is
  valid exactly when the error set is empty. On a PUT, the updated record is
  left out of the uniqueness check.
- `views.dfy`, module `Views`: `CheckOwnerExists`, the response values, and
  the class `Registry`. The class holds the three tables and one
  auto-increment counter per table, plus one method per view function. The
  POST, PUT and DELETE branches of each view are methods of their own,
  which the view method dispatches to. Each method returns the status code
  and the body. Its contract states the response and the whole new state in
  terms of the old state, including the record count after a create or a
  delete. Every method preserves the store invariant `Valid()`: `cpf`/`cnpj`
  uniqueness, ids drawn from their table's sequence, and stored records that
  satisfy their field constraints. Two example sessions are also verified.
  The first uses the record of the repository's model test: it creates that
  natural person, a legal entity owned by its cpf, a good whose owner is
  unknown, and the same person again. The second deletes the owner and shows
  the owned record survives.

Email-address syntax is an uninterpreted predicate `isEmail`. It is fixed
when a `Registry` is constructed, and it also stands for the email column's
length limit.

What the code enforces, and what it does not:

- Only maximum lengths are checked. There are no exact digit counts and no
  digit-only content: `cpf` ≤ 11, `cnpj` ≤ 14, `state_registration` ≤ 12,
  `zipcode` ≤ 8, `phone_number` ≤ 12, `owner` ≤ 14.
- The `good_type` choices are the Portuguese words `imovel`, `automovel` and
  `empresa`.
- A uniqueness collision is one of the serializer's field errors. It is
  reported together with the other field errors, before the ownership check,
  not as a separate store-level error.
- `cpf` and `cnpj` are unique within their own table only. One string may be
  a stored cpf and a stored cnpj at once.

## Model

| member | source | states |
|---|---|---|
| `Views.CheckOwnerExists` | api/views.py:24-31 | computed from the two filter counts; true iff some stored natural person has `cpf == owner` or some stored legal entity has `cnpj == owner`; reads the tables only |
| `Models.CpfCountZero` | api/views.py:27-29 | the cpf filter count is zero iff no natural person holds that cpf |
| `Models.CnpjCountZero` | api/views.py:28-29 | the cnpj filter count is zero iff no legal entity holds that cnpj |
| `Models.CpfMatchesAtMostOne` | api/models.py:5 | stand-alone corollary of `unique=True`: when cpfs are unique, the cpf filter in the owner check finds at most one record |
| `Models.CnpjMatchesAtMostOne` | api/models.py:13 | stand-alone corollary of `unique=True`: when cnpjs are unique, the cnpj filter finds at most one record |
| `Models.UniqueCpfsCount` | api/models.py:5 | stand-alone corollary: cpf is a natural key, so a table with unique cpfs holds as many distinct cpfs as records |
| `Models.UniqueCpfsAfterSave` | api/views.py:51-52 | saving a natural person whose cpf no other record holds keeps cpfs unique, for a fresh id (create) and for the record's own id (update) |
| `Models.UniqueCnpjsAfterSave` | api/views.py:104-106 | saving a legal entity whose cnpj no other record holds keeps cnpjs unique |
| `Models.UniqueCpfsAfterDelete` | api/views.py:82-84 | deleting a natural person keeps cpfs unique |
| `Models.UniqueCnpjsAfterDelete` | api/views.py:149-151 | deleting a legal entity keeps cnpjs unique |
| `Models.GoodsTypeFitsMaxLength` | api/models.py:25-30 | each `good_type` choice fits the declared `max_length` of 9 |
| `Models.DeleteRemovesExactlyOne` | api/views.py:216-218 | deleting an id that is present removes exactly that key: one record fewer, every other record unchanged; used by every DELETE |
| `Models.InsertAddsExactlyOne` | api/views.py:171-174 | saving under an id not in the table adds exactly one record, stored under that id, and keeps every earlier record; used by every create |
| `Models.UpdateKeepsKeys` | api/views.py:205-207 | saving under an id already in the table keeps the same keys and count and every other record; used by every PUT |
| `Validation.PhysicalErrors` | api/models.py:5-9 | no errors iff every length bound holds, the email is valid and no other record holds the cpf; for each field, its too-long error is reported iff that field exceeds its own bound (cpf 11, name 200, zipcode 8, phone 12); the uniqueness error iff the cpf is taken; the email error iff the email is invalid; no other error |
| `Validation.LegalErrors` | api/models.py:13-21 | no errors iff every bound holds, the email is valid and no other record holds the cnpj; each too-long error iff its own field exceeds its own bound (cnpj 14, social reason 200, fantasy name 200, state registration 12, zipcode 8, phone 12, owner 14); the uniqueness error iff the cnpj is taken; the email error iff the email is invalid; no other error |
| `Validation.LegalKeyErrors` | api/models.py:13-21 | the cnpj, email and owner errors, each iff its own condition, and nothing else |
| `Validation.LegalLengthErrors` | api/models.py:14-19 | the too-long errors of social reason, fantasy name, state registration, zipcode and phone, each iff its own bound is exceeded, and nothing else |
| `Validation.GoodErrors` | api/models.py:25-33 | no errors iff `good_type` is a choice and the owner fits 14 characters; the choice error iff the type is not a choice; the owner error iff the owner exceeds 14; no other error (in particular no uniqueness error); a valid type then fits 9 characters |
| `Views.DeletingSoleHolderOrphansOwner` | api/views.py:82-84 | deleting the only holder of a cpf that no legal entity holds turns that cpf from an existing owner into an unknown one: there is no cascade and no re-check |
| `Views.SelfOwnedCreateNeedsPhysicalHolder` | api/views.py:104-106 | creating a legal entity whose owner is its own not-yet-stored cnpj passes the owner check only if a natural person holds that string as cpf |
| `Views.PhysicalSaveKeepsInvariant` | api/views.py:51-52 | saving a validated natural person under a fresh id or its own id keeps the store invariant |
| `Views.LegalSaveKeepsInvariant` | api/views.py:104-106 | saving a validated legal entity keeps the store invariant |
| `Views.GoodSaveKeepsInvariant` | api/views.py:171-174 | saving a validated good keeps the store invariant |
| `Views.PhysicalDeleteKeepsInvariant` | api/views.py:82-84 | deleting a natural person keeps the store invariant |
| `Views.LegalDeleteKeepsInvariant` | api/views.py:149-151 | deleting a legal entity keeps the store invariant |
| `Views.GoodDeleteKeepsInvariant` | api/views.py:216-218 | deleting a good keeps the store invariant |
| `Views.Registry.PhysicalPeopleList` | api/views.py:38-54 | GET: 200 with the whole table, nothing changes. POST: as `PhysicalPersonCreate`. Never an owner error |
| `Views.Registry.PhysicalPersonCreate` | api/views.py:47-54 | valid payload: 201 with the payload under the next id, which was unused; exactly that record is added, one record more. Invalid: 400 with the error set, nothing changes. Never an owner error |
| `Views.Registry.PhysicalPeopleDetail` | api/views.py:61-84 | an unknown id gets 404 for any request, nothing changes. GET: 200 with the record. PUT and DELETE: as the two methods below. Other tables are never touched; never an owner error |
| `Views.Registry.PhysicalPersonUpdate` | api/views.py:74-80 | valid (the record's own cpf excluded): 200, the record is replaced at the same id, same keys. Invalid: 400, nothing changes |
| `Views.Registry.PhysicalPersonDelete` | api/views.py:82-84 | 200, exactly that id removed, one record fewer, other tables untouched |
| `Views.Registry.LegalPeopleList` | api/views.py:91-114 | GET: 200 with the whole table, nothing changes. POST: as `LegalPersonCreate` |
| `Views.Registry.LegalPersonCreate` | api/views.py:100-114 | field errors first (400, nothing changes); only then the owner check on the unchanged store (400 with the fixed message, nothing changes); otherwise 201 and one record added under a fresh id |
| `Views.Registry.LegalPeopleDetail` | api/views.py:121-151 | unknown id: 404, nothing changes. GET: 200 with the record. PUT and DELETE: as the two methods below |
| `Views.Registry.LegalPersonUpdate` | api/views.py:134-147 | validation (own cnpj excluded), then the owner check against the store before the save, then replace at the same id with 200; each failure leaves the store unchanged |
| `Views.Registry.LegalPersonDelete` | api/views.py:149-151 | 200, exactly that id removed, one record fewer; goods and natural persons untouched |
| `Views.Registry.GoodsList` | api/views.py:158-181 | GET: 200 with all goods, nothing changes. POST: as `GoodCreate`; the person tables never change |
| `Views.Registry.GoodCreate` | api/views.py:167-181 | choice/length errors give 400; an unknown owner gives 400 with the fixed message; otherwise 201 and one good added under a fresh id |
| `Views.Registry.GoodsDetail` | api/views.py:188-218 | unknown id: 404, nothing changes. GET: 200 with the good. PUT and DELETE: as the two methods below |
| `Views.Registry.GoodUpdate` | api/views.py:201-214 | validate, owner check, replace at the same id with 200; each failure leaves the store unchanged |
| `Views.Registry.GoodDelete` | api/views.py:216-218 | 200, exactly that good removed, one good fewer |
| `Views.FulanoIsValid` | api/tests.py:8-14 | the record of the model test passes validation on an empty table when its email is accepted |
| `Views.FulanoCompanyIsValid` | api/models.py:13-21 | the example legal entity owned by that cpf passes validation on an empty table |
| `Views.FulanoDuplicateErrors` | api/models.py:5 | once the model test's record is stored, posting it again fails with exactly the cpf uniqueness error |
| `Views.ExampleSession` | api/tests.py:8-14 | uses the record of the repository's model test. On a fresh store: creating it gives 201 with id 1; a legal entity owned by that cpf gives 201; a good owned by `00000000000` gives the owner error; creating the same person again gives 400 with exactly the cpf uniqueness error |
| `Views.ExampleDeleteOwner` | api/views.py:82-84 | after that session, deleting the person gives 200 and a later GET gives 404; the legal entity it owned is unchanged and its owner no longer resolves |

## Left out

- HTTP and JSON plumbing is not modelled: parsing, serialisation, method dispatch and 405 answers. A request is a `ListRequest`/`DetailRequest` value, and a body is a record, a table or an error set.
- Authentication, permissions and CSRF handling (the 403 path) belong to the framework and are not modelled.
- Malformed JSON, missing fields and wrong field types are not modelled: a payload is always a complete record value.
- The serializer's library defaults are not modelled: required fields, rejection of blank strings, and whitespace trimming of character fields.
- Email syntax is not interpreted. It is the parameter `isEmail`, which also covers the email column's default length limit of 254.
- Field errors are modelled as a set of `Violation` values carrying the field and the kind of failure. The framework's message texts are not modelled.
- Views.Registry.PhysicalPeopleList: a GET body is the table as a map from id to record. The order of the JSON array is not modelled, since the queryset has no declared ordering.
- Views.Registry.LegalPeopleList: same for the list of legal entities.
- Views.Registry.GoodsList: same for the list of goods.
- Concurrency and transactions are not modelled. Each request is atomic and sequential, so the race between validation and the database's unique constraint does not arise.
- Database-level behaviour beyond the declared constraints is not modelled. Storage column widths and id exhaustion are out of scope, and ids are unbounded naturals.
- api/urls.py (routing), api/serializers.py (library configuration; its field lists give the response shape) and api/migrations/0001_initial.py are not part of this model. The migration is out of date: it declares `cpf` an integer and covers only natural persons. The model follows api/models.py.
