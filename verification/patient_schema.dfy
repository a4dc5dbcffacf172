/** Input validation for patient creation: the two zod object schemas of the POST
    handler (`addressSchema` and `patientSchema`), written as total functions from
    the decoded request body to either a normalised `PatientInput` or the list of
    issues zod reports. */
module PatientSchema {
  import opened Options

  /** A JavaScript `Date`: an instant, in milliseconds since the epoch, or the
      "Invalid Date" whose time value is NaN. */
  datatype Date = At(epochMillis: int) | InvalidDate

  /** The request body as the validator sees it. `Obj` is a plain object (a key that
      is absent from `fields` reads as `undefined`); `OtherValue` is every value the
      schemas never accept where they ask for a string, a date or an object: numbers,
      booleans, `null` and arrays. */
  datatype Value =
    | Str(s: string)
    | DateObj(d: Date)
    | Obj(fields: map<string, Value>)
    | OtherValue

  /** The zod issue codes these schemas can produce. `InvalidType` is also what a
      missing required field reports. */
  datatype IssueCode =
    | InvalidType
    | TooSmall(message: string)
    | InvalidEnumValue
    | InvalidUnion

  /** One violated constraint, located by the path of keys from the body's root. */
  datatype Issue = Issue(path: seq<string>, code: IssueCode)

  /** The outcome of validating one field or object: the normalised value, or every
      issue found in it. */
  datatype Parsed<+T> = Accepted(value: T) | Rejected(issues: seq<Issue>) {
    function Issues(): seq<Issue> {
      if Accepted? then [] else issues
    }
  }

  datatype AddressType = Home | Work | Billing | Other

  datatype Status = Inquiry | Onboarding | Active | Churned

  /** The validated primary or secondary address (`addressSchema`'s output). */
  datatype Address = Address(
    addressLine1: string,
    addressLine2: Option<string>,
    city: string,
    state: string,
    zipCode: string,
    country: string,
    addressType: AddressType)

  /** The validated creation payload (`patientSchema`'s output). */
  datatype PatientInput = PatientInput(
    firstName: string,
    lastName: string,
    middleName: Option<string>,
    dateOfBirth: Date,
    address: Address,
    secondaryAddress: Option<Address>,
    status: Status)

  const AddressTypeNames: set<string> := {"home", "work", "billing", "other"}
  const StatusNames: set<string> := {"inquiry", "onboarding", "active", "churned"}

  function AddressTypeName(t: AddressType): string {
    match t
    case Home => "home"
    case Work => "work"
    case Billing => "billing"
    case Other => "other"
  }

  function StatusName(s: Status): string {
    match s
    case Inquiry => "inquiry"
    case Onboarding => "onboarding"
    case Active => "active"
    case Churned => "churned"
  }

  /** `z.enum(['home', 'work', 'billing', 'other'])` on a string: exactly the four
      names are accepted, each naming its own address type. */
  function ParseAddressType(name: string): (r: Option<AddressType>)
    ensures r.Some? <==> name in AddressTypeNames
    ensures forall t :: r == Some(t) <==> AddressTypeName(t) == name
  {
    match name
    case "home" => Some(Home)
    case "work" => Some(Work)
    case "billing" => Some(Billing)
    case "other" => Some(Other)
    case _ => None
  }

  /** `z.enum(['inquiry', 'onboarding', 'active', 'churned'])` on a string. */
  function ParseStatus(name: string): (r: Option<Status>)
    ensures r.Some? <==> name in StatusNames
    ensures forall s :: r == Some(s) <==> StatusName(s) == name
  {
    match name
    case "inquiry" => Some(Inquiry)
    case "onboarding" => Some(Onboarding)
    case "active" => Some(Active)
    case "churned" => Some(Churned)
    case _ => None
  }

  /** What the rest of the create path relies on: every `.min(1)` string is non-empty. */
  predicate WellFormedAddress(a: Address) {
    a.addressLine1 != "" && a.city != "" && a.state != "" && a.zipCode != ""
  }

  predicate WellFormedInput(p: PatientInput) {
    && p.firstName != ""
    && p.lastName != ""
    && WellFormedAddress(p.address)
    && (p.secondaryAddress.Some? ==> WellFormedAddress(p.secondaryAddress.value))
  }

  // ---------------------------------------------------------------------------
  // The shape of an acceptable body, stated on the raw value

  function Lookup(fields: map<string, Value>, key: string): Option<Value> {
    if key in fields then Some(fields[key]) else None
  }

  /** A string of length at least one. */
  predicate IsNonEmptyText(f: Option<Value>) {
    f.Some? && f.value.Str? && f.value.s != ""
  }

  /** Absent, or any string (the empty string included). */
  predicate IsTextOrAbsent(f: Option<Value>) {
    f.None? || f.value.Str?
  }

  /** Absent, or a string among `names`. */
  predicate IsNameOrAbsent(f: Option<Value>, names: set<string>) {
    f.None? || (f.value.Str? && f.value.s in names)
  }

  /** Any string, or a `Date` that is not the Invalid Date. */
  predicate IsDateInput(f: Option<Value>) {
    f.Some? && (f.value.Str? || (f.value.DateObj? && f.value.d.At?))
  }

  /** The given string, or `default` when the field is absent. */
  function TextOr(f: Option<Value>, default: string): string {
    if f.Some? && f.value.Str? then f.value.s else default
  }

  predicate AddressAcceptable(v: Value) {
    && v.Obj?
    && IsNonEmptyText(Lookup(v.fields, "addressLine1"))
    && IsTextOrAbsent(Lookup(v.fields, "addressLine2"))
    && IsNonEmptyText(Lookup(v.fields, "city"))
    && IsNonEmptyText(Lookup(v.fields, "state"))
    && IsNonEmptyText(Lookup(v.fields, "zipCode"))
    && IsTextOrAbsent(Lookup(v.fields, "country"))
    && IsNameOrAbsent(Lookup(v.fields, "addressType"), AddressTypeNames)
  }

  predicate PatientAcceptable(v: Value) {
    && v.Obj?
    && IsNonEmptyText(Lookup(v.fields, "firstName"))
    && IsNonEmptyText(Lookup(v.fields, "lastName"))
    && IsTextOrAbsent(Lookup(v.fields, "middleName"))
    && IsDateInput(Lookup(v.fields, "dateOfBirth"))
    && "address" in v.fields && AddressAcceptable(v.fields["address"])
    && ("secondaryAddress" in v.fields ==> AddressAcceptable(v.fields["secondaryAddress"]))
    && IsNameOrAbsent(Lookup(v.fields, "status"), StatusNames)
  }

  // ---------------------------------------------------------------------------
  // Field rules

  const RequiredAddressKeys: set<string> := {"addressLine1", "city", "state", "zipCode"}
  const RequiredNameKeys: set<string> := {"firstName", "lastName"}

  /** The message each `.min(1, ...)` rule reports for an empty string. */
  function RequiredMessage(key: string): string {
    match key
    case "addressLine1" => "Address line 1 is required"
    case "city" => "City is required"
    case "state" => "State is required"
    case "zipCode" => "ZIP code is required"
    case "firstName" => "First name is required"
    case "lastName" => "Last name is required"
    case _ => ""
  }

  /** `z.string().min(1, message)` */
  function RequiredText(f: Option<Value>, path: seq<string>, message: string): (r: Parsed<string>)
    ensures r.Accepted? <==> IsNonEmptyText(f)
    ensures r.Rejected? ==> |r.issues| == 1 && r.issues[0].path == path
  {
    if f.Some? && f.value.Str? then
      if |f.value.s| >= 1 then Accepted(f.value.s) else Rejected([Issue(path, TooSmall(message))])
    else
      Rejected([Issue(path, InvalidType)])
  }

  /** `z.string().optional()` */
  function OptionalText(f: Option<Value>, path: seq<string>): (r: Parsed<Option<string>>)
    ensures r.Accepted? <==> IsTextOrAbsent(f)
    ensures r.Rejected? ==> |r.issues| == 1 && r.issues[0].path == path
  {
    match f
    case None => Accepted(None)
    case Some(Str(s)) => Accepted(Some(s))
    case Some(_) => Rejected([Issue(path, InvalidType)])
  }

  /** `z.string().default(default)` */
  function TextWithDefault(f: Option<Value>, path: seq<string>, default: string): (r: Parsed<string>)
    ensures r.Accepted? <==> IsTextOrAbsent(f)
    ensures r.Rejected? ==> |r.issues| == 1 && r.issues[0].path == path
  {
    match f
    case None => Accepted(default)
    case Some(Str(s)) => Accepted(s)
    case Some(_) => Rejected([Issue(path, InvalidType)])
  }

  /** `z.enum(['home', 'work', 'billing', 'other']).default('home')` */
  function AddressTypeWithDefault(f: Option<Value>, path: seq<string>): (r: Parsed<AddressType>)
    ensures r.Accepted? <==> IsNameOrAbsent(f, AddressTypeNames)
    ensures r.Rejected? ==> |r.issues| == 1 && r.issues[0].path == path
  {
    match f
    case None => Accepted(Home)
    case Some(Str(s)) =>
      var t := ParseAddressType(s);
      if t.Some? then Accepted(t.value) else Rejected([Issue(path, InvalidEnumValue)])
    case Some(_) => Rejected([Issue(path, InvalidType)])
  }

  /** `z.enum(['inquiry', 'onboarding', 'active', 'churned']).default('inquiry')` */
  function StatusWithDefault(f: Option<Value>, path: seq<string>): (r: Parsed<Status>)
    ensures r.Accepted? <==> IsNameOrAbsent(f, StatusNames)
    ensures r.Rejected? ==> |r.issues| == 1 && r.issues[0].path == path
  {
    match f
    case None => Accepted(Inquiry)
    case Some(Str(s)) =>
      var st := ParseStatus(s);
      if st.Some? then Accepted(st.value) else Rejected([Issue(path, InvalidEnumValue)])
    case Some(_) => Rejected([Issue(path, InvalidType)])
  }

  /** `z.string().or(z.date()).transform(val => val instanceof Date ? val : new Date(val))`.
      `parse` stands for `new Date(string)`; its result is taken as it comes, so an
      unparseable string becomes the Invalid Date instead of a rejection. Only a `Date`
      object that is already invalid fails, because `z.date()` refuses it. */
  function DateOfBirthField(f: Option<Value>, path: seq<string>, parse: string -> Date): (r: Parsed<Date>)
    ensures r.Accepted? <==> IsDateInput(f)
    ensures r.Rejected? ==> |r.issues| == 1 && r.issues[0].path == path
  {
    match f
    case Some(Str(s)) => Accepted(parse(s))
    case Some(DateObj(At(ms))) => Accepted(At(ms))
    case _ => Rejected([Issue(path, InvalidUnion)])
  }

  // ---------------------------------------------------------------------------
  // The two object schemas

  /** `addressSchema` applied to the value at `path`. Keys the schema does not name are
      ignored (zod strips them). */
  function ValidateAddress(v: Value, path: seq<string>): (r: Parsed<Address>)
    ensures r.Accepted? <==> AddressAcceptable(v)
    ensures r.Rejected? ==> r.issues != []
  {
    if !v.Obj? then Rejected([Issue(path, InvalidType)])
    else
      var f := v.fields;
      var line1 := RequiredText(Lookup(f, "addressLine1"), path + ["addressLine1"], RequiredMessage("addressLine1"));
      var line2 := OptionalText(Lookup(f, "addressLine2"), path + ["addressLine2"]);
      var city := RequiredText(Lookup(f, "city"), path + ["city"], RequiredMessage("city"));
      var state := RequiredText(Lookup(f, "state"), path + ["state"], RequiredMessage("state"));
      var zip := RequiredText(Lookup(f, "zipCode"), path + ["zipCode"], RequiredMessage("zipCode"));
      var country := TextWithDefault(Lookup(f, "country"), path + ["country"], "USA");
      var kind := AddressTypeWithDefault(Lookup(f, "addressType"), path + ["addressType"]);
      if line1.Accepted? && line2.Accepted? && city.Accepted? && state.Accepted?
         && zip.Accepted? && country.Accepted? && kind.Accepted?
      then
        Accepted(Address(line1.value, line2.value, city.value, state.value, zip.value, country.value, kind.value))
      else
        Rejected(line1.Issues() + line2.Issues() + city.Issues() + state.Issues()
                 + zip.Issues() + country.Issues() + kind.Issues())
  }

  /** `patientSchema.parse(body)`: all-or-nothing, reporting every violated field. */
  function ValidatePatient(v: Value, parse: string -> Date): (r: Parsed<PatientInput>)
    ensures r.Accepted? <==> PatientAcceptable(v)
    ensures r.Rejected? ==> r.issues != []
  {
    if !v.Obj? then Rejected([Issue([], InvalidType)])
    else
      var f := v.fields;
      var first := RequiredText(Lookup(f, "firstName"), ["firstName"], RequiredMessage("firstName"));
      var last := RequiredText(Lookup(f, "lastName"), ["lastName"], RequiredMessage("lastName"));
      var middle := OptionalText(Lookup(f, "middleName"), ["middleName"]);
      var born := DateOfBirthField(Lookup(f, "dateOfBirth"), ["dateOfBirth"], parse);
      var primary := if "address" in f then ValidateAddress(f["address"], ["address"])
                     else Rejected([Issue(["address"], InvalidType)]);
      var secondary := if "secondaryAddress" in f then
                         var a := ValidateAddress(f["secondaryAddress"], ["secondaryAddress"]);
                         if a.Accepted? then Accepted(Some(a.value)) else Rejected(a.issues)
                       else Accepted(None);
      var status := StatusWithDefault(Lookup(f, "status"), ["status"]);
      if first.Accepted? && last.Accepted? && middle.Accepted? && born.Accepted?
         && primary.Accepted? && secondary.Accepted? && status.Accepted?
      then
        Accepted(PatientInput(first.value, last.value, middle.value, born.value,
                              primary.value, secondary.value, status.value))
      else
        Rejected(first.Issues() + last.Issues() + middle.Issues() + born.Issues()
                 + primary.Issues() + secondary.Issues() + status.Issues())
  }

  // ---------------------------------------------------------------------------
  // Properties of the address schema

  /** An accepted address keeps the given strings and fills the two defaults:
      `country` becomes "USA" and `addressType` becomes "home" when absent. */
  lemma AddressAcceptedValues(v: Value, path: seq<string>)
    requires AddressAcceptable(v)
    ensures var r := ValidateAddress(v, path);
      && r.Accepted?
      && WellFormedAddress(r.value)
      && r.value.addressLine1 == v.fields["addressLine1"].s
      && r.value.addressLine2 == (if "addressLine2" in v.fields then Some(v.fields["addressLine2"].s) else None)
      && r.value.city == v.fields["city"].s
      && r.value.state == v.fields["state"].s
      && r.value.zipCode == v.fields["zipCode"].s
      && r.value.country == TextOr(Lookup(v.fields, "country"), "USA")
      && AddressTypeName(r.value.addressType) == TextOr(Lookup(v.fields, "addressType"), "home")
  {
  }

  /** An empty `addressLine1`, `city`, `state` or `zipCode` rejects the address, and the
      issue names that key and carries the schema's message. */
  lemma AddressRejectsEmptyRequired(v: Value, path: seq<string>, key: string)
    requires v.Obj? && key in RequiredAddressKeys && Lookup(v.fields, key) == Some(Str(""))
    ensures ValidateAddress(v, path).Rejected?
    ensures Issue(path + [key], TooSmall(RequiredMessage(key))) in ValidateAddress(v, path).Issues()
  {
  }

  /** An `addressType` string outside the four names is reported as an enum violation. */
  lemma AddressRejectsUnknownType(v: Value, path: seq<string>)
    requires v.Obj? && Lookup(v.fields, "addressType").Some?
    requires Lookup(v.fields, "addressType").value.Str?
    requires Lookup(v.fields, "addressType").value.s !in AddressTypeNames
    ensures ValidateAddress(v, path).Rejected?
    ensures Issue(path + ["addressType"], InvalidEnumValue) in ValidateAddress(v, path).Issues()
  {
  }

  /** Every issue of a nested address lies under the path it was validated at. */
  lemma AddressIssuesUnderPath(v: Value, path: seq<string>)
    ensures IssuesUnder(ValidateAddress(v, path).Issues(), path)
  {
    if v.Obj? {
      var f := v.fields;
      var line1 := RequiredText(Lookup(f, "addressLine1"), path + ["addressLine1"], RequiredMessage("addressLine1"));
      var line2 := OptionalText(Lookup(f, "addressLine2"), path + ["addressLine2"]);
      var city := RequiredText(Lookup(f, "city"), path + ["city"], RequiredMessage("city"));
      var state := RequiredText(Lookup(f, "state"), path + ["state"], RequiredMessage("state"));
      var zip := RequiredText(Lookup(f, "zipCode"), path + ["zipCode"], RequiredMessage("zipCode"));
      var country := TextWithDefault(Lookup(f, "country"), path + ["country"], "USA");
      var kind := AddressTypeWithDefault(Lookup(f, "addressType"), path + ["addressType"]);
      FieldIssuesUnder(line1, path, "addressLine1");
      FieldIssuesUnder(line2, path, "addressLine2");
      FieldIssuesUnder(city, path, "city");
      FieldIssuesUnder(state, path, "state");
      FieldIssuesUnder(zip, path, "zipCode");
      FieldIssuesUnder(country, path, "country");
      FieldIssuesUnder(kind, path, "addressType");
      var parts := line1.Issues() + line2.Issues() + city.Issues() + state.Issues()
                   + zip.Issues() + country.Issues() + kind.Issues();
      assert ValidateAddress(v, path).Issues() == [] || ValidateAddress(v, path).Issues() == parts;
      IssuesUnderAll(line1.Issues(), line2.Issues(), city.Issues(), state.Issues(),
                     zip.Issues(), country.Issues(), kind.Issues(), path);
    }
  }

  /** Seven lists of issues under `path` concatenate to a list under `path`. */
  lemma IssuesUnderAll(a: seq<Issue>, b: seq<Issue>, c: seq<Issue>, d: seq<Issue>,
                       e: seq<Issue>, f: seq<Issue>, g: seq<Issue>, path: seq<string>)
    requires forall x :: x in a || x in b || x in c || x in d || x in e || x in f || x in g ==> path <= x.path
    ensures IssuesUnder(a + b + c + d + e + f + g, path)
  {
    var all := a + b + c + d + e + f + g;
    forall i | 0 <= i < |all| ensures path <= all[i].path {
      assert all[i] in all;
    }
  }

  /** A field validated at `path + [key]` reports its issue there, below `path`. */
  lemma FieldIssuesUnder<T>(r: Parsed<T>, path: seq<string>, key: string)
    requires r.Rejected? ==> |r.issues| == 1 && r.issues[0].path == path + [key]
    ensures forall x :: x in r.Issues() ==> path <= x.path
  {
    if r.Rejected? {
      assert path <= path + [key];
    }
  }

  /** Every issue in `issues` lies at `path` or below it. */
  ghost predicate IssuesUnder(issues: seq<Issue>, path: seq<string>) {
    forall i :: 0 <= i < |issues| ==> path <= issues[i].path
  }

  /** The keys `addressSchema` names. */
  const AddressKeys: set<string> :=
    {"addressLine1", "addressLine2", "city", "state", "zipCode", "country", "addressType"}

  /** Whether the field at `key` meets its rule in `addressSchema`. */
  predicate AddressFieldAcceptable(f: map<string, Value>, key: string) {
    match key
    case "addressLine1" => IsNonEmptyText(Lookup(f, "addressLine1"))
    case "addressLine2" => IsTextOrAbsent(Lookup(f, "addressLine2"))
    case "city" => IsNonEmptyText(Lookup(f, "city"))
    case "state" => IsNonEmptyText(Lookup(f, "state"))
    case "zipCode" => IsNonEmptyText(Lookup(f, "zipCode"))
    case "country" => IsTextOrAbsent(Lookup(f, "country"))
    case "addressType" => IsNameOrAbsent(Lookup(f, "addressType"), AddressTypeNames)
    case _ => true
  }

  /** An object address is acceptable exactly when every key's rule holds. */
  lemma AddressAcceptableByField(v: Value)
    requires v.Obj?
    ensures AddressAcceptable(v) <==> forall key :: key in AddressKeys ==> AddressFieldAcceptable(v.fields, key)
  {
    var f := v.fields;
    assert AddressFieldAcceptable(f, "addressLine1") == IsNonEmptyText(Lookup(f, "addressLine1"));
    assert AddressFieldAcceptable(f, "addressLine2") == IsTextOrAbsent(Lookup(f, "addressLine2"));
    assert AddressFieldAcceptable(f, "city") == IsNonEmptyText(Lookup(f, "city"));
    assert AddressFieldAcceptable(f, "state") == IsNonEmptyText(Lookup(f, "state"));
    assert AddressFieldAcceptable(f, "zipCode") == IsNonEmptyText(Lookup(f, "zipCode"));
    assert AddressFieldAcceptable(f, "country") == IsTextOrAbsent(Lookup(f, "country"));
    assert AddressFieldAcceptable(f, "addressType") == IsNameOrAbsent(Lookup(f, "addressType"), AddressTypeNames);
  }

  /** Every violated field of an address is reported at its own key: whichever key
      breaks its rule (absent, not a string, empty, or not one of the four type
      names), the address is rejected with an issue at `path + [key]`. */
  lemma AddressReportsFailedField(v: Value, path: seq<string>, key: string)
    requires v.Obj? && key in AddressKeys && !AddressFieldAcceptable(v.fields, key)
    ensures ValidateAddress(v, path).Rejected?
    ensures exists x :: x in ValidateAddress(v, path).Issues() && x.path == path + [key]
  {
    AddressAcceptableByField(v);
    var fs := AddressFieldIssues(v.fields, path);
    var x: Issue;
    if key == "addressLine1" {
      x := fs[0][0];
    } else if key == "addressLine2" {
      x := fs[1][0];
    } else if key == "city" {
      x := fs[2][0];
    } else if key == "state" {
      x := fs[3][0];
    } else if key == "zipCode" {
      x := fs[4][0];
    } else if key == "country" {
      x := fs[5][0];
    } else {
      x := fs[6][0];
    }
    AddressIssuesInclude(v, path, x);
  }

  /** The address's issues, as its seven fields report them, in order. */
  function AddressFieldIssues(f: map<string, Value>, path: seq<string>): seq<seq<Issue>> {
    [ RequiredText(Lookup(f, "addressLine1"), path + ["addressLine1"], RequiredMessage("addressLine1")).Issues(),
      OptionalText(Lookup(f, "addressLine2"), path + ["addressLine2"]).Issues(),
      RequiredText(Lookup(f, "city"), path + ["city"], RequiredMessage("city")).Issues(),
      RequiredText(Lookup(f, "state"), path + ["state"], RequiredMessage("state")).Issues(),
      RequiredText(Lookup(f, "zipCode"), path + ["zipCode"], RequiredMessage("zipCode")).Issues(),
      TextWithDefault(Lookup(f, "country"), path + ["country"], "USA").Issues(),
      AddressTypeWithDefault(Lookup(f, "addressType"), path + ["addressType"]).Issues() ]
  }

  /** A rejected address carries every issue of every field. */
  lemma AddressIssuesInclude(v: Value, path: seq<string>, x: Issue)
    requires v.Obj? && !AddressAcceptable(v)
    requires exists k :: 0 <= k < 7 && x in AddressFieldIssues(v.fields, path)[k]
    ensures x in ValidateAddress(v, path).Issues()
  {
    var fs := AddressFieldIssues(v.fields, path);
    assert ValidateAddress(v, path).Issues() == fs[0] + fs[1] + fs[2] + fs[3] + fs[4] + fs[5] + fs[6];
  }

  // ---------------------------------------------------------------------------
  // Properties of the patient schema

  /** An accepted body keeps the given strings, normalises the date of birth and
      fills `status` with "inquiry" when absent. */
  lemma PatientAcceptedValues(v: Value, parse: string -> Date)
    requires PatientAcceptable(v)
    ensures var r := ValidatePatient(v, parse);
      && r.Accepted?
      && WellFormedInput(r.value)
      && r.value.firstName == v.fields["firstName"].s
      && r.value.lastName == v.fields["lastName"].s
      && r.value.middleName == (if "middleName" in v.fields then Some(v.fields["middleName"].s) else None)
      && r.value.dateOfBirth == (if v.fields["dateOfBirth"].Str? then parse(v.fields["dateOfBirth"].s)
                                 else v.fields["dateOfBirth"].d)
      && r.value.address == ValidateAddress(v.fields["address"], ["address"]).value
      && r.value.secondaryAddress == (if "secondaryAddress" in v.fields
                                      then Some(ValidateAddress(v.fields["secondaryAddress"], ["secondaryAddress"]).value)
                                      else None)
      && StatusName(r.value.status) == TextOr(Lookup(v.fields, "status"), "inquiry")
  {
  }

  /** An empty `firstName` or `lastName` rejects the body with that field's message. */
  lemma PatientRejectsEmptyName(v: Value, parse: string -> Date, key: string)
    requires v.Obj? && key in RequiredNameKeys && Lookup(v.fields, key) == Some(Str(""))
    ensures ValidatePatient(v, parse).Rejected?
    ensures Issue([key], TooSmall(RequiredMessage(key))) in ValidatePatient(v, parse).Issues()
  {
  }

  /** A `status` string outside the four names is reported as an enum violation. */
  lemma PatientRejectsUnknownStatus(v: Value, parse: string -> Date)
    requires v.Obj? && Lookup(v.fields, "status").Some?
    requires Lookup(v.fields, "status").value.Str?
    requires Lookup(v.fields, "status").value.s !in StatusNames
    ensures ValidatePatient(v, parse).Rejected?
    ensures Issue(["status"], InvalidEnumValue) in ValidatePatient(v, parse).Issues()
  {
  }

  /** An empty required field of the primary address rejects the whole body, and the
      issue's path runs through `address`. */
  lemma PatientRejectsEmptyAddressField(v: Value, parse: string -> Date, key: string)
    requires v.Obj? && "address" in v.fields && v.fields["address"].Obj?
    requires key in RequiredAddressKeys && Lookup(v.fields["address"].fields, key) == Some(Str(""))
    ensures ValidatePatient(v, parse).Rejected?
    ensures Issue(["address", key], TooSmall(RequiredMessage(key))) in ValidatePatient(v, parse).Issues()
  {
    var primary := ValidateAddress(v.fields["address"], ["address"]);
    AddressRejectsEmptyRequired(v.fields["address"], ["address"], key);
    assert ["address"] + [key] == ["address", key];
    PatientIncludesAddressIssues(v, parse);
  }

  /** The issues of the primary address are among the body's issues. */
  lemma PatientIncludesAddressIssues(v: Value, parse: string -> Date)
    requires v.Obj? && "address" in v.fields
    ensures forall x :: x in ValidateAddress(v.fields["address"], ["address"]).Issues() ==>
      x in ValidatePatient(v, parse).Issues()
  {
    var f := v.fields;
    var first := RequiredText(Lookup(f, "firstName"), ["firstName"], RequiredMessage("firstName"));
    var last := RequiredText(Lookup(f, "lastName"), ["lastName"], RequiredMessage("lastName"));
    var middle := OptionalText(Lookup(f, "middleName"), ["middleName"]);
    var born := DateOfBirthField(Lookup(f, "dateOfBirth"), ["dateOfBirth"], parse);
    var primary := ValidateAddress(f["address"], ["address"]);
    var secondary := if "secondaryAddress" in f then
                       var a := ValidateAddress(f["secondaryAddress"], ["secondaryAddress"]);
                       if a.Accepted? then Accepted(Some(a.value)) else Rejected(a.issues)
                     else Accepted(None);
    var status := StatusWithDefault(Lookup(f, "status"), ["status"]);
    var before := first.Issues() + last.Issues() + middle.Issues() + born.Issues();
    var after := secondary.Issues() + status.Issues();
    if primary.Rejected? {
      assert ValidatePatient(v, parse).Issues() == before + primary.Issues() + after;
    }
  }

  /** The issues of the secondary address are among the body's issues. */
  lemma PatientIncludesSecondaryAddressIssues(v: Value, parse: string -> Date)
    requires v.Obj? && "secondaryAddress" in v.fields
    ensures forall x :: x in ValidateAddress(v.fields["secondaryAddress"], ["secondaryAddress"]).Issues() ==>
      x in ValidatePatient(v, parse).Issues()
  {
    var fs := PatientFieldIssues(v.fields, parse);
    var secondary := ValidateAddress(v.fields["secondaryAddress"], ["secondaryAddress"]);
    if secondary.Rejected? {
      assert !PatientAcceptable(v);
      assert ValidatePatient(v, parse).Issues() == fs[0] + fs[1] + fs[2] + fs[3] + fs[4] + fs[5] + fs[6];
      assert fs[5] == secondary.Issues();
    }
  }

  /** The keys `patientSchema` names. */
  const PatientKeys: set<string> :=
    {"firstName", "lastName", "middleName", "dateOfBirth", "address", "secondaryAddress", "status"}

  /** Whether the field at `key` meets its rule in `patientSchema`. */
  predicate PatientFieldAcceptable(f: map<string, Value>, key: string) {
    match key
    case "firstName" => IsNonEmptyText(Lookup(f, "firstName"))
    case "lastName" => IsNonEmptyText(Lookup(f, "lastName"))
    case "middleName" => IsTextOrAbsent(Lookup(f, "middleName"))
    case "dateOfBirth" => IsDateInput(Lookup(f, "dateOfBirth"))
    case "address" => "address" in f && AddressAcceptable(f["address"])
    case "secondaryAddress" => "secondaryAddress" in f ==> AddressAcceptable(f["secondaryAddress"])
    case "status" => IsNameOrAbsent(Lookup(f, "status"), StatusNames)
    case _ => true
  }

  /** An object body is acceptable exactly when every key's rule holds. */
  lemma PatientAcceptableByField(v: Value)
    requires v.Obj?
    ensures PatientAcceptable(v) <==> forall key :: key in PatientKeys ==> PatientFieldAcceptable(v.fields, key)
  {
    var f := v.fields;
    assert PatientFieldAcceptable(f, "firstName") == IsNonEmptyText(Lookup(f, "firstName"));
    assert PatientFieldAcceptable(f, "lastName") == IsNonEmptyText(Lookup(f, "lastName"));
    assert PatientFieldAcceptable(f, "middleName") == IsTextOrAbsent(Lookup(f, "middleName"));
    assert PatientFieldAcceptable(f, "dateOfBirth") == IsDateInput(Lookup(f, "dateOfBirth"));
    assert PatientFieldAcceptable(f, "address") == ("address" in f && AddressAcceptable(f["address"]));
    assert PatientFieldAcceptable(f, "secondaryAddress")
      == ("secondaryAddress" in f ==> AddressAcceptable(f["secondaryAddress"]));
    assert PatientFieldAcceptable(f, "status") == IsNameOrAbsent(Lookup(f, "status"), StatusNames);
  }

  /** zod reports every violated field, not only the first: whichever key of the
      body breaks its rule (absent, of the wrong type, empty, not an enum name, or an
      address with an issue of its own), the body is rejected and some issue's path
      starts with that key. */
  lemma PatientReportsEveryFailedField(v: Value, parse: string -> Date, key: string)
    requires v.Obj? && key in PatientKeys && !PatientFieldAcceptable(v.fields, key)
    ensures ValidatePatient(v, parse).Rejected?
    ensures exists x :: x in ValidatePatient(v, parse).Issues() && [key] <= x.path
  {
    PatientAcceptableByField(v);
    var x := FailedFieldIssue(v, parse, key);
    PatientIssuesInclude(v, parse, x);
  }

  /** The body's issues, as the seven fields report them, in order. */
  function PatientFieldIssues(f: map<string, Value>, parse: string -> Date): seq<seq<Issue>> {
    [ RequiredText(Lookup(f, "firstName"), ["firstName"], RequiredMessage("firstName")).Issues(),
      RequiredText(Lookup(f, "lastName"), ["lastName"], RequiredMessage("lastName")).Issues(),
      OptionalText(Lookup(f, "middleName"), ["middleName"]).Issues(),
      DateOfBirthField(Lookup(f, "dateOfBirth"), ["dateOfBirth"], parse).Issues(),
      (if "address" in f then ValidateAddress(f["address"], ["address"]).Issues()
       else [Issue(["address"], InvalidType)]),
      (if "secondaryAddress" in f then ValidateAddress(f["secondaryAddress"], ["secondaryAddress"]).Issues()
       else []),
      StatusWithDefault(Lookup(f, "status"), ["status"]).Issues() ]
  }

  /** An issue of a failing field, found under that field's key. */
  lemma FailedFieldIssue(v: Value, parse: string -> Date, key: string) returns (x: Issue)
    requires v.Obj? && key in PatientKeys && !PatientFieldAcceptable(v.fields, key)
    ensures exists k :: 0 <= k < 7 && x in PatientFieldIssues(v.fields, parse)[k]
    ensures [key] <= x.path
  {
    var f := v.fields;
    var fields := PatientFieldIssues(f, parse);
    if key == "firstName" {
      x := fields[0][0];
    } else if key == "lastName" {
      x := fields[1][0];
    } else if key == "middleName" {
      x := fields[2][0];
    } else if key == "dateOfBirth" {
      x := fields[3][0];
    } else if key == "address" {
      if "address" in f {
        AddressIssuesUnderPath(f["address"], ["address"]);
      }
      x := fields[4][0];
    } else if key == "secondaryAddress" {
      AddressIssuesUnderPath(f["secondaryAddress"], ["secondaryAddress"]);
      x := fields[5][0];
    } else {
      x := fields[6][0];
    }
  }

  /** A rejected body carries every issue of every field. */
  lemma PatientIssuesInclude(v: Value, parse: string -> Date, x: Issue)
    requires v.Obj? && !PatientAcceptable(v)
    requires exists k :: 0 <= k < 7 && x in PatientFieldIssues(v.fields, parse)[k]
    ensures x in ValidatePatient(v, parse).Issues()
  {
    var fs := PatientFieldIssues(v.fields, parse);
    assert ValidatePatient(v, parse).Issues() == fs[0] + fs[1] + fs[2] + fs[3] + fs[4] + fs[5] + fs[6];
  }

  /** `new Date(string)` never makes validation fail: a date string that does not parse
      is accepted and normalised to the Invalid Date. */
  lemma UnparseableDateAccepted(v: Value, parse: string -> Date)
    requires PatientAcceptable(v) && v.fields["dateOfBirth"].Str?
    requires parse(v.fields["dateOfBirth"].s) == InvalidDate
    ensures ValidatePatient(v, parse).Accepted?
    ensures ValidatePatient(v, parse).value.dateOfBirth == InvalidDate
  {
  }

  // ---------------------------------------------------------------------------
  // Round trip: a validated value, written back as a body, validates to itself

  function AddressValue(a: Address): Value {
    var required := map["addressLine1" := Str(a.addressLine1),
                        "city" := Str(a.city),
                        "state" := Str(a.state),
                        "zipCode" := Str(a.zipCode),
                        "country" := Str(a.country),
                        "addressType" := Str(AddressTypeName(a.addressType))];
    Obj(if a.addressLine2.Some? then required["addressLine2" := Str(a.addressLine2.value)] else required)
  }

  function PatientValue(p: PatientInput): Value {
    var required := map["firstName" := Str(p.firstName),
                        "lastName" := Str(p.lastName),
                        "dateOfBirth" := DateObj(p.dateOfBirth),
                        "address" := AddressValue(p.address),
                        "status" := Str(StatusName(p.status))];
    var withMiddle := if p.middleName.Some? then required["middleName" := Str(p.middleName.value)] else required;
    Obj(if p.secondaryAddress.Some? then withMiddle["secondaryAddress" := AddressValue(p.secondaryAddress.value)]
        else withMiddle)
  }

  lemma {:induction false} AddressRoundTrip(a: Address, path: seq<string>)
    requires WellFormedAddress(a)
    ensures ValidateAddress(AddressValue(a), path) == Accepted(a)
  {
    var f := AddressValue(a).fields;
    assert f["addressLine1"] == Str(a.addressLine1) && f["city"] == Str(a.city);
    assert f["state"] == Str(a.state) && f["zipCode"] == Str(a.zipCode);
    assert f["country"] == Str(a.country);
    assert f["addressType"] == Str(AddressTypeName(a.addressType));
    assert "addressLine2" in f <==> a.addressLine2.Some?;
    assert a.addressLine2.Some? ==> f["addressLine2"] == Str(a.addressLine2.value);
    AddressAcceptedValues(AddressValue(a), path);
    var r := ValidateAddress(AddressValue(a), path).value;
    assert ParseAddressType(AddressTypeName(a.addressType)) == Some(a.addressType);
    assert r.addressType == a.addressType;
  }

  /** The body written back from a validated value has the shape the schema accepts,
      and holds each field of the value at its own key. */
  lemma {:induction false} PatientValueFields(p: PatientInput)
    requires WellFormedInput(p) && p.dateOfBirth.At?
    ensures var v := PatientValue(p);
      && v.Obj?
      && v.fields["firstName"] == Str(p.firstName)
      && v.fields["lastName"] == Str(p.lastName)
      && v.fields["dateOfBirth"] == DateObj(p.dateOfBirth)
      && v.fields["address"] == AddressValue(p.address)
      && v.fields["status"] == Str(StatusName(p.status))
      && ("middleName" in v.fields <==> p.middleName.Some?)
      && (p.middleName.Some? ==> v.fields["middleName"] == Str(p.middleName.value))
      && ("secondaryAddress" in v.fields <==> p.secondaryAddress.Some?)
      && (p.secondaryAddress.Some? ==> v.fields["secondaryAddress"] == AddressValue(p.secondaryAddress.value))
  {
  }

  /** Validation is idempotent on its own output, except for the Invalid Date, which
      `z.date()` refuses when it is handed back as a `Date` object. */
  lemma {:induction false} PatientRoundTrip(p: PatientInput, parse: string -> Date)
    requires WellFormedInput(p) && p.dateOfBirth.At?
    ensures ValidatePatient(PatientValue(p), parse) == Accepted(p)
  {
    var v := PatientValue(p);
    PatientValueFields(p);
    AddressRoundTrip(p.address, ["address"]);
    if p.secondaryAddress.Some? {
      AddressRoundTrip(p.secondaryAddress.value, ["secondaryAddress"]);
    }
    var f := v.fields;
    assert IsNonEmptyText(Lookup(f, "firstName")) && IsNonEmptyText(Lookup(f, "lastName"));
    assert IsTextOrAbsent(Lookup(f, "middleName")) && IsDateInput(Lookup(f, "dateOfBirth"));
    assert AddressAcceptable(f["address"]);
    assert "secondaryAddress" in f ==> AddressAcceptable(f["secondaryAddress"]);
    assert IsNameOrAbsent(Lookup(f, "status"), StatusNames);
    PatientAcceptedValues(v, parse);
    var r := ValidatePatient(v, parse).value;
    assert ParseStatus(StatusName(p.status)) == Some(p.status);
    assert r.status == p.status;
  }
}
