/** The create path of the POST handler: two tables (`patients` and
    `patient_addresses`) with their id counters, and the transaction that inserts a
    patient row, its primary address row and, when one was given, a secondary
    address row, all or nothing. */
module PatientStore {
  import opened Options
  import opened PatientSchema
  import opened AddressFormat

  /** A row of `patients`. */
  datatype PatientRow = PatientRow(
    id: nat,
    firstName: string,
    lastName: string,
    middleName: Option<string>,
    dateOfBirth: Date,
    address: string,
    status: Status)

  /** A row of `patient_addresses`. */
  datatype AddressRow = AddressRow(
    id: nat,
    patientId: nat,
    addressLine1: string,
    addressLine2: Option<string>,
    city: string,
    state: string,
    zipCode: string,
    country: string,
    addressType: AddressType,
    isPrimary: bool)

  /** The whole store: both tables in insertion order and the next id each
      auto-increment key hands out. */
  datatype Tables = Tables(
    patients: seq<PatientRow>,
    addresses: seq<AddressRow>,
    nextPatientId: nat,
    nextAddressId: nat)

  /** Where the database may fail during the transaction: the patient insert may
      return no row, or any of the three inserts may throw. */
  datatype DbFault =
    | NoFault
    | PatientInsertReturnsNothing
    | PatientInsertThrows
    | PrimaryAddressInsertThrows
    | SecondaryAddressInsertThrows

  datatype CreateError =
    | ValidationFailed(issues: seq<Issue>)
    | PatientNotCreated          // "Failed to create patient"
    | DatabaseError(fault: DbFault)

  // ---------------------------------------------------------------------------
  // The rows the handler writes

  /** JavaScript's `value || null` on an optional string: `undefined` and the empty
      string are both stored as NULL, any other string as itself. */
  function NullIfEmpty(o: Option<string>): (r: Option<string>)
    ensures r.None? <==> o.None? || o.value == ""
    ensures r.Some? ==> r == o
  {
    if o.Some? && o.value != "" then o else None
  }

  /** The values of the patient insert, with the id the table assigns. */
  function PatientRowFor(input: PatientInput, id: nat): PatientRow {
    PatientRow(id, input.firstName, input.lastName, NullIfEmpty(input.middleName),
               input.dateOfBirth, AddressString(input.address), input.status)
  }

  /** The values of one address insert, with the id the table assigns. */
  function AddressRowFor(a: Address, patientId: nat, id: nat, primary: bool): AddressRow {
    AddressRow(id, patientId, a.addressLine1, NullIfEmpty(a.addressLine2), a.city, a.state,
               a.zipCode, a.country, a.addressType, primary)
  }

  /** The address rows one successful create appends, in order. */
  function NewAddressRows(input: PatientInput, patientId: nat, firstId: nat): seq<AddressRow> {
    [AddressRowFor(input.address, patientId, firstId, true)]
    + (if input.secondaryAddress.Some?
       then [AddressRowFor(input.secondaryAddress.value, patientId, firstId + 1, false)]
       else [])
  }

  /** The store after a committed create. */
  function Created(t: Tables, input: PatientInput): Tables {
    var rows := NewAddressRows(input, t.nextPatientId, t.nextAddressId);
    Tables(t.patients + [PatientRowFor(input, t.nextPatientId)],
           t.addresses + rows,
           t.nextPatientId + 1,
           t.nextAddressId + |rows|)
  }

  /** The error the transaction ends with under `fault`, if any. A fault in the
      secondary insert matters only when there is a secondary address to insert. */
  function FailureOf(input: PatientInput, fault: DbFault): Option<CreateError> {
    match fault
    case NoFault => None
    case PatientInsertReturnsNothing => Some(PatientNotCreated)
    case SecondaryAddressInsertThrows =>
      if input.secondaryAddress.Some? then Some(DatabaseError(fault)) else None
    case _ => Some(DatabaseError(fault))
  }

  // ---------------------------------------------------------------------------
  // Queries over the tables

  /** The address rows of one patient, in table order. */
  function AddressesOf(rows: seq<AddressRow>, patientId: nat): (r: seq<AddressRow>)
    ensures |r| <= |rows|
    ensures forall i :: 0 <= i < |r| ==> r[i].patientId == patientId
  {
    if rows == [] then []
    else if rows[0].patientId == patientId then [rows[0]] + AddressesOf(rows[1..], patientId)
    else AddressesOf(rows[1..], patientId)
  }

  /** How many of `rows` are marked primary. */
  function PrimaryCount(rows: seq<AddressRow>): (n: nat)
    ensures n <= |rows|
  {
    if rows == [] then 0
    else (if rows[0].isPrimary then 1 else 0) + PrimaryCount(rows[1..])
  }

  /** `select ... where id = ?` */
  function FindPatient(patients: seq<PatientRow>, id: nat): Option<PatientRow> {
    if patients == [] then None
    else if patients[0].id == id then Some(patients[0])
    else FindPatient(patients[1..], id)
  }

  predicate IsPatientId(patients: seq<PatientRow>, id: nat) {
    exists i :: 0 <= i < |patients| && patients[i].id == id
  }

  /** What the create path guarantees of every stored patient row: required names
      and the derived address are non-empty, and an empty middle name is NULL. */
  predicate StoredPatient(p: PatientRow) {
    p.firstName != "" && p.lastName != "" && p.address != "" && p.middleName != Some("")
  }

  /** And of every stored address row. */
  predicate StoredAddress(a: AddressRow) {
    && a.addressLine1 != "" && a.city != "" && a.state != "" && a.zipCode != ""
    && a.addressLine2 != Some("")
  }

  /** Ids are positive, increase in insertion order and stay below the counter. */
  ghost predicate PatientIdsOrdered(t: Tables) {
    && 1 <= t.nextPatientId
    && (forall i :: 0 <= i < |t.patients| ==> 1 <= t.patients[i].id < t.nextPatientId)
    && (forall i, j :: 0 <= i < j < |t.patients| ==> t.patients[i].id < t.patients[j].id)
  }

  ghost predicate AddressIdsOrdered(t: Tables) {
    && 1 <= t.nextAddressId
    && (forall i :: 0 <= i < |t.addresses| ==> 1 <= t.addresses[i].id < t.nextAddressId)
    && (forall i, j :: 0 <= i < j < |t.addresses| ==> t.addresses[i].id < t.addresses[j].id)
  }

  /** The foreign key: every address row belongs to a stored patient. */
  ghost predicate AddressesReferencePatients(t: Tables) {
    forall i :: 0 <= i < |t.addresses| ==> IsPatientId(t.patients, t.addresses[i].patientId)
  }

  /** Every patient has exactly one primary address. */
  ghost predicate OnePrimaryEach(t: Tables) {
    forall i :: 0 <= i < |t.patients| ==> PrimaryCount(AddressesOf(t.addresses, t.patients[i].id)) == 1
  }

  ghost predicate RowsNormalised(t: Tables) {
    && (forall i :: 0 <= i < |t.patients| ==> StoredPatient(t.patients[i]))
    && (forall i :: 0 <= i < |t.addresses| ==> StoredAddress(t.addresses[i]))
  }

  /** The invariant of a store that only the create path has written to. */
  ghost predicate Consistent(t: Tables) {
    && PatientIdsOrdered(t)
    && AddressIdsOrdered(t)
    && AddressesReferencePatients(t)
    && OnePrimaryEach(t)
    && RowsNormalised(t)
  }

  // ---------------------------------------------------------------------------
  // Lemmas about the queries

  lemma {:induction false} AddressesOfAppend(a: seq<AddressRow>, b: seq<AddressRow>, patientId: nat)
    ensures AddressesOf(a + b, patientId) == AddressesOf(a, patientId) + AddressesOf(b, patientId)
  {
    if a == [] {
      assert a + b == b;
    } else {
      assert (a + b)[1..] == a[1..] + b;
      AddressesOfAppend(a[1..], b, patientId);
    }
  }

  lemma {:induction false} AddressesOfNone(rows: seq<AddressRow>, patientId: nat)
    requires forall i :: 0 <= i < |rows| ==> rows[i].patientId != patientId
    ensures AddressesOf(rows, patientId) == []
  {
    if rows != [] {
      AddressesOfNone(rows[1..], patientId);
    }
  }

  lemma {:induction false} AddressesOfAll(rows: seq<AddressRow>, patientId: nat)
    requires forall i :: 0 <= i < |rows| ==> rows[i].patientId == patientId
    ensures AddressesOf(rows, patientId) == rows
  {
    if rows != [] {
      AddressesOfAll(rows[1..], patientId);
      assert [rows[0]] + rows[1..] == rows;
    }
  }

  /** Looking a patient up by the id of a stored row finds that row, when ids are
      distinct. */
  lemma {:induction false} FindStoredPatient(patients: seq<PatientRow>, k: nat)
    requires k < |patients|
    requires forall i, j :: 0 <= i < j < |patients| ==> patients[i].id < patients[j].id
    ensures FindPatient(patients, patients[k].id) == Some(patients[k])
  {
    if k > 0 {
      assert patients[0].id < patients[k].id;
      FindStoredPatient(patients[1..], k - 1);
    }
  }

  // ---------------------------------------------------------------------------
  // What a committed create does

  /** The address rows of one create: exactly one primary row, for the primary
      address; a second, non-primary row exactly when a secondary address was given;
      every row pointing at the new patient; an empty or absent line 2 stored as NULL
      and `country` and `addressType` copied as validated. */
  lemma NewAddressRowsShape(input: PatientInput, patientId: nat, firstId: nat)
    ensures var rows := NewAddressRows(input, patientId, firstId);
      && |rows| == (if input.secondaryAddress.Some? then 2 else 1)
      && PrimaryCount(rows) == 1
      && rows[0].isPrimary
      && (forall i :: 0 <= i < |rows| ==> rows[i].patientId == patientId)
      && (forall i :: 0 <= i < |rows| ==> rows[i].id == firstId + i)
      && ((exists i :: 0 <= i < |rows| && !rows[i].isPrimary) <==> input.secondaryAddress.Some?)
      && SameAddress(rows[0], input.address)
      && (input.secondaryAddress.Some? ==> SameAddress(rows[1], input.secondaryAddress.value))
  {
    var rows := NewAddressRows(input, patientId, firstId);
    if input.secondaryAddress.Some? {
      assert rows[1..] == [rows[1]];
      assert !rows[1].isPrimary;
    }
  }

  /** A stored address row carries the validated address: the strings as given, the
      optional line 2 turned to NULL when absent or empty, `country` kept even when
      it is empty. */
  predicate SameAddress(row: AddressRow, a: Address) {
    && row.addressLine1 == a.addressLine1
    && row.addressLine2 == NullIfEmpty(a.addressLine2)
    && row.city == a.city && row.state == a.state && row.zipCode == a.zipCode
    && row.country == a.country
    && row.addressType == a.addressType
  }

  /** The patient row of a create takes its fields from the validated input: the
      derived single-line address (from the primary address only), the validated
      status, and NULL for an absent or empty middle name. */
  lemma NewPatientRowShape(input: PatientInput, id: nat)
    requires WellFormedInput(input)
    ensures var row := PatientRowFor(input, id);
      && row.id == id
      && row.firstName == input.firstName && row.lastName == input.lastName
      && row.dateOfBirth == input.dateOfBirth
      && row.status == input.status
      && (row.middleName.None? <==> input.middleName.None? || input.middleName.value == "")
      && (row.middleName.Some? ==> row.middleName == input.middleName)
      && row.address == AddressString(input.address)
      && row.address != "" && input.address.addressLine1 <= row.address
      && StoredPatient(row)
  {
    AddressStringStartsWithLine1(input.address);
  }

  /** On a consistent store, the new patient's address rows are exactly the rows this
      create inserted, so it has one or two of them and exactly one is primary. */
  lemma CreatedAddressesOfNewPatient(t: Tables, input: PatientInput)
    requires Consistent(t)
    ensures var rows := AddressesOf(Created(t, input).addresses, t.nextPatientId);
      && rows == NewAddressRows(input, t.nextPatientId, t.nextAddressId)
      && 1 <= |rows| <= 2
      && PrimaryCount(rows) == 1
  {
    var pid := t.nextPatientId;
    var rows := NewAddressRows(input, pid, t.nextAddressId);
    forall i | 0 <= i < |t.addresses| ensures t.addresses[i].patientId != pid {
      assert IsPatientId(t.patients, t.addresses[i].patientId);
      var k :| 0 <= k < |t.patients| && t.patients[k].id == t.addresses[i].patientId;
    }
    AddressesOfNone(t.addresses, pid);
    NewAddressRowsShape(input, pid, t.nextAddressId);
    AddressesOfAll(rows, pid);
    AddressesOfAppend(t.addresses, rows, pid);
  }

  /** A create leaves every existing row as it was, at the same position, and gives
      no existing patient a new address. */
  lemma CreatedKeepsExistingRows(t: Tables, input: PatientInput)
    requires Consistent(t)
    ensures var t' := Created(t, input);
      && t'.patients[..|t.patients|] == t.patients
      && t'.addresses[..|t.addresses|] == t.addresses
      && |t'.patients| == |t.patients| + 1
      && (forall i :: 0 <= i < |t.patients| ==>
            AddressesOf(t'.addresses, t.patients[i].id) == AddressesOf(t.addresses, t.patients[i].id))
  {
    var t' := Created(t, input);
    var rows := NewAddressRows(input, t.nextPatientId, t.nextAddressId);
    NewAddressRowsShape(input, t.nextPatientId, t.nextAddressId);
    forall i | 0 <= i < |t.patients|
      ensures AddressesOf(t'.addresses, t.patients[i].id) == AddressesOf(t.addresses, t.patients[i].id)
    {
      AddressesOfNone(rows, t.patients[i].id);
      AddressesOfAppend(t.addresses, rows, t.patients[i].id);
    }
  }

  /** The returned row is the one stored under its id, which no earlier row had. */
  lemma CreatedPatientIsFound(t: Tables, input: PatientInput)
    requires Consistent(t)
    ensures var t' := Created(t, input);
      && !IsPatientId(t.patients, t.nextPatientId)
      && FindPatient(t'.patients, t.nextPatientId) == Some(PatientRowFor(input, t.nextPatientId))
  {
    var t' := Created(t, input);
    assert t'.patients[|t.patients|] == PatientRowFor(input, t.nextPatientId);
    FindStoredPatient(t'.patients, |t.patients|);
  }

  /** A create on a consistent store, with validated input, keeps it consistent. */
  lemma CreatePreservesConsistency(t: Tables, input: PatientInput)
    requires Consistent(t) && WellFormedInput(input)
    ensures Consistent(Created(t, input))
  {
    CreateKeepsIdsOrdered(t, input);
    CreateKeepsReferences(t, input);
    CreateKeepsOnePrimaryEach(t, input);
    CreateKeepsRowsNormalised(t, input);
  }

  lemma CreateKeepsIdsOrdered(t: Tables, input: PatientInput)
    requires PatientIdsOrdered(t) && AddressIdsOrdered(t)
    ensures PatientIdsOrdered(Created(t, input)) && AddressIdsOrdered(Created(t, input))
  {
    var t' := Created(t, input);
    var rows := NewAddressRows(input, t.nextPatientId, t.nextAddressId);
    NewAddressRowsShape(input, t.nextPatientId, t.nextAddressId);
    assert t'.patients[|t.patients|].id == t.nextPatientId;
    forall i | |t.addresses| <= i < |t'.addresses| ensures t'.addresses[i].id == t.nextAddressId + (i - |t.addresses|) {
      assert t'.addresses[i] == rows[i - |t.addresses|];
    }
  }

  lemma CreateKeepsReferences(t: Tables, input: PatientInput)
    requires AddressesReferencePatients(t)
    ensures AddressesReferencePatients(Created(t, input))
  {
    var t' := Created(t, input);
    var pid := t.nextPatientId;
    var rows := NewAddressRows(input, pid, t.nextAddressId);
    NewAddressRowsShape(input, pid, t.nextAddressId);
    assert t'.patients[|t.patients|].id == pid;
    forall i | 0 <= i < |t'.addresses| ensures IsPatientId(t'.patients, t'.addresses[i].patientId) {
      if i < |t.addresses| {
        assert IsPatientId(t.patients, t.addresses[i].patientId);
        var k :| 0 <= k < |t.patients| && t.patients[k].id == t.addresses[i].patientId;
        assert t'.patients[k] == t.patients[k];
      } else {
        assert t'.addresses[i] == rows[i - |t.addresses|];
      }
    }
  }

  lemma CreateKeepsOnePrimaryEach(t: Tables, input: PatientInput)
    requires Consistent(t)
    ensures OnePrimaryEach(Created(t, input))
  {
    var t' := Created(t, input);
    CreatedKeepsExistingRows(t, input);
    CreatedAddressesOfNewPatient(t, input);
    forall i | 0 <= i < |t'.patients| ensures PrimaryCount(AddressesOf(t'.addresses, t'.patients[i].id)) == 1 {
      if i < |t.patients| {
        assert t'.patients[i] == t.patients[i];
      } else {
        assert t'.patients[i].id == t.nextPatientId;
      }
    }
  }

  lemma CreateKeepsRowsNormalised(t: Tables, input: PatientInput)
    requires RowsNormalised(t) && WellFormedInput(input)
    ensures RowsNormalised(Created(t, input))
  {
    var t' := Created(t, input);
    var rows := NewAddressRows(input, t.nextPatientId, t.nextAddressId);
    NewAddressRowsShape(input, t.nextPatientId, t.nextAddressId);
    NewPatientRowShape(input, t.nextPatientId);
    forall i | 0 <= i < |t'.patients| ensures StoredPatient(t'.patients[i]) {
      if i < |t.patients| {
        assert t'.patients[i] == t.patients[i];
      }
    }
    forall i | 0 <= i < |t'.addresses| ensures StoredAddress(t'.addresses[i]) {
      if i < |t.addresses| {
        assert t'.addresses[i] == t.addresses[i];
      } else {
        assert t'.addresses[i] == rows[i - |t.addresses|];
        assert rows[i - |t.addresses|] == rows[0]
            || (input.secondaryAddress.Some? && rows[i - |t.addresses|] == rows[1]);
      }
    }
  }

  /** An example: a body with only the required fields, created in an empty store,
      is accepted with status "inquiry", country "USA" and address type "home", and
      becomes patient 1 with one primary address row. */
  lemma JaneDoeExample(parse: string -> Date)
    ensures var address := Obj(map["addressLine1" := Str("1 Main St"), "city" := Str("Springfield"),
                                   "state" := Str("IL"), "zipCode" := Str("62704")]);
      var body := Obj(map["firstName" := Str("Jane"), "lastName" := Str("Doe"),
                          "dateOfBirth" := Str("1990-01-01"), "address" := address]);
      var r := ValidatePatient(body, parse);
      && r.Accepted?
      && r.value.status == Inquiry
      && r.value.dateOfBirth == parse("1990-01-01")
      && r.value.address == Address("1 Main St", None, "Springfield", "IL", "62704", "USA", Home)
      && r.value.secondaryAddress.None?
      && Created(Tables([], [], 1, 1), r.value).patients == [PatientRowFor(r.value, 1)]
      && Created(Tables([], [], 1, 1), r.value).addresses
           == [AddressRow(1, 1, "1 Main St", None, "Springfield", "IL", "62704", "USA", Home, true)]
  {
    var address := Obj(map["addressLine1" := Str("1 Main St"), "city" := Str("Springfield"),
                           "state" := Str("IL"), "zipCode" := Str("62704")]);
    var body := Obj(map["firstName" := Str("Jane"), "lastName" := Str("Doe"),
                        "dateOfBirth" := Str("1990-01-01"), "address" := address]);
    assert AddressAcceptable(address);
    AddressAcceptedValues(address, ["address"]);
    var a := ValidateAddress(address, ["address"]).value;
    assert AddressTypeName(a.addressType) == "home";
    assert a.addressType == Home;
    assert PatientAcceptable(body);
    PatientAcceptedValues(body, parse);
    var p := ValidatePatient(body, parse).value;
    assert StatusName(p.status) == "inquiry";
  }

  // ---------------------------------------------------------------------------
  // The store and the handler

  class Store {
    var patients: seq<PatientRow>
    var addresses: seq<AddressRow>
    var nextPatientId: nat
    var nextAddressId: nat

    function State(): Tables
      reads this
    {
      Tables(patients, addresses, nextPatientId, nextAddressId)
    }

    /** An empty database: both auto-increment keys start at 1. */
    constructor ()
      ensures State() == Tables([], [], 1, 1)
      ensures Consistent(State())
    {
      patients, addresses := [], [];
      nextPatientId, nextAddressId := 1, 1;
    }

    /** `tx.insert(patients).values(...).returning()` */
    method InsertPatient(input: PatientInput) returns (row: PatientRow)
      modifies this
      ensures row == PatientRowFor(input, old(nextPatientId))
      ensures patients == old(patients) + [row]
      ensures nextPatientId == old(nextPatientId) + 1
      ensures addresses == old(addresses) && nextAddressId == old(nextAddressId)
    {
      row := PatientRowFor(input, nextPatientId);
      patients := patients + [row];
      nextPatientId := nextPatientId + 1;
    }

    /** `tx.insert(patientAddresses).values(...)` */
    method InsertAddress(a: Address, patientId: nat, primary: bool)
      modifies this
      ensures addresses == old(addresses) + [AddressRowFor(a, patientId, old(nextAddressId), primary)]
      ensures nextAddressId == old(nextAddressId) + 1
      ensures patients == old(patients) && nextPatientId == old(nextPatientId)
    {
      addresses := addresses + [AddressRowFor(a, patientId, nextAddressId, primary)];
      nextAddressId := nextAddressId + 1;
    }

    /** Rolling the transaction back: the store returns to the state saved when it
        began. */
    method Restore(saved: Tables)
      modifies this
      ensures State() == saved
    {
      patients, addresses := saved.patients, saved.addresses;
      nextPatientId, nextAddressId := saved.nextPatientId, saved.nextAddressId;
    }

    /** The transaction of the POST handler. On success the store is `Created` from
        the old one and the new patient row is returned; on any failure the store is
        exactly as before, so no patient exists without its primary address and no
        address row is left behind. */
    method Create(input: PatientInput, fault: DbFault) returns (r: Result<PatientRow, CreateError>)
      modifies this
      ensures FailureOf(input, fault).None? ==>
        && r == Ok(PatientRowFor(input, old(nextPatientId)))
        && State() == Created(old(State()), input)
      ensures FailureOf(input, fault).Some? ==>
        && r == Err(FailureOf(input, fault).value)
        && State() == old(State())
      ensures Consistent(old(State())) && WellFormedInput(input) ==> Consistent(State())
    {
      var saved := State();
      if fault == PatientInsertThrows {
        return Err(DatabaseError(fault));
      }
      var newPatient := InsertPatient(input);
      if fault == PatientInsertReturnsNothing {
        Restore(saved);
        return Err(PatientNotCreated);
      }
      InsertAddress(input.address, newPatient.id, true);
      if fault == PrimaryAddressInsertThrows {
        Restore(saved);
        return Err(DatabaseError(fault));
      }
      if input.secondaryAddress.Some? {
        InsertAddress(input.secondaryAddress.value, newPatient.id, false);
        if fault == SecondaryAddressInsertThrows {
          Restore(saved);
          return Err(DatabaseError(fault));
        }
      }
      assert addresses == saved.addresses + NewAddressRows(input, saved.nextPatientId, saved.nextAddressId);
      if Consistent(saved) && WellFormedInput(input) {
        CreatePreservesConsistency(saved, input);
      }
      r := Ok(newPatient);
    }

    /** The whole handler: validate the body, then run the transaction. A body that
        fails validation never reaches the store. */
    method HandleCreate(body: Value, parse: string -> Date, fault: DbFault)
      returns (r: Result<PatientRow, CreateError>)
      modifies this
      ensures !PatientAcceptable(body) ==>
        && r == Err(ValidationFailed(ValidatePatient(body, parse).issues))
        && State() == old(State())
      ensures PatientAcceptable(body) ==>
        var input := ValidatePatient(body, parse).value;
        && (FailureOf(input, fault).None? ==>
              r == Ok(PatientRowFor(input, old(nextPatientId))) && State() == Created(old(State()), input))
        && (FailureOf(input, fault).Some? ==>
              r == Err(FailureOf(input, fault).value) && State() == old(State()))
      ensures Consistent(old(State())) ==> Consistent(State())
    {
      var parsed := ValidatePatient(body, parse);
      if parsed.Rejected? {
        return Err(ValidationFailed(parsed.issues));
      }
      PatientAcceptedValues(body, parse);
      r := Create(parsed.value, fault);
    }
  }

}
