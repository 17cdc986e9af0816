/**
 The form record held by the provider: eleven string-valued fields, every one
 always present.
 */
module FormFields {

  /** The keys of the form record. */
  datatype Field =
    | FirstName | LastName | Username | Email | Password | PhoneNo
    | CountryCode | Country | City | PanNo | AadharNo

  datatype FormData = FormData(
    firstName: string,
    lastName: string,
    username: string,
    email: string,
    password: string,
    phoneNo: string,
    countryCode: string,
    country: string,
    city: string,
    panNo: string,
    aadharNo: string)

  /** The keys in the order `Object.keys` lists them: the order of the initial
      object literal, which the spreading updates keep. */
  const Fields: seq<Field> :=
    [FirstName, LastName, Username, Email, Password, PhoneNo,
     CountryCode, Country, City, PanNo, AadharNo]

  /** Every key is listed. */
  lemma FieldsListsEveryKey(f: Field)
    ensures f in Fields
  {
    match f
    case FirstName => assert Fields[0] == f;
    case LastName => assert Fields[1] == f;
    case Username => assert Fields[2] == f;
    case Email => assert Fields[3] == f;
    case Password => assert Fields[4] == f;
    case PhoneNo => assert Fields[5] == f;
    case CountryCode => assert Fields[6] == f;
    case Country => assert Fields[7] == f;
    case City => assert Fields[8] == f;
    case PanNo => assert Fields[9] == f;
    case AadharNo => assert Fields[10] == f;
  }

  /** `formData[f]` */
  function Get(d: FormData, f: Field): string {
    match f
    case FirstName => d.firstName
    case LastName => d.lastName
    case Username => d.username
    case Email => d.email
    case Password => d.password
    case PhoneNo => d.phoneNo
    case CountryCode => d.countryCode
    case Country => d.country
    case City => d.city
    case PanNo => d.panNo
    case AadharNo => d.aadharNo
  }

  /** `{...d, [f]: v}`: field `f` now holds `v` and every other field is kept. */
  function Set(d: FormData, f: Field, v: string): (r: FormData)
    ensures Get(r, f) == v
    ensures forall g | g != f :: Get(r, g) == Get(d, g)
  {
    match f
    case FirstName => d.(firstName := v)
    case LastName => d.(lastName := v)
    case Username => d.(username := v)
    case Email => d.(email := v)
    case Password => d.(password := v)
    case PhoneNo => d.(phoneNo := v)
    case CountryCode => d.(countryCode := v)
    case Country => d.(country := v)
    case City => d.(city := v)
    case PanNo => d.(panNo := v)
    case AadharNo => d.(aadharNo := v)
  }
}
