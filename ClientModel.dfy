/** The Client and Contact schemas (models/Client.js). */
module ClientModel {
  import opened Wrappers

  const CompanyNameMaxLength: nat := 100

  datatype Contact = Contact(name: string, email: Option<string>, phone: Option<string>)

  /** `notes` is not a schema field; the client form reads and sends it, and the list renders it. */
  datatype Client = Client(
    id: string,
    companyName: string,
    website: Option<string>,
    boothLocation: Option<string>,
    category: string,
    contacts: seq<Contact>,
    notes: Option<string>)

  datatype ClientField = CompanyName | Category | ContactName

  /**
   * What `Client.create` and `findByIdAndUpdate` keep of a request body: Mongoose's strict mode
   * drops paths the schema does not declare, and `notes` is one of them.
   */
  function StrictCast(c: Client): (s: Client)
    ensures s.notes.None?
    ensures s.(notes := c.notes) == c
  {
    c.(notes := None)
  }

  /** A schema with a `notes: String` path, as the list's rendering of `client.notes` expects: the body is kept whole. */
  function CastWithNotesPath(c: Client): (s: Client)
    ensures s.notes == c.notes
    ensures s.(notes := None) == StrictCast(c)
  {
    c
  }

  /** Dropping the notes never changes what the validators report. */
  lemma StrictCastKeepsErrors(c: Client)
    ensures ClientErrors(StrictCast(c)) == ClientErrors(c)
  {
  }

  predicate AllContactsNamed(cs: seq<Contact>)
  {
    forall i :: 0 <= i < |cs| ==> cs[i].name != ""
  }

  /** The fields a save would report in its ValidationError. */
  function ClientErrors(c: Client): (errs: seq<ClientField>)
    ensures CompanyName in errs <==> c.companyName == "" || |c.companyName| > CompanyNameMaxLength
    ensures Category in errs <==> c.category == ""
    ensures ContactName in errs <==> exists i :: 0 <= i < |c.contacts| && c.contacts[i].name == ""
  {
    (if c.companyName == "" || |c.companyName| > CompanyNameMaxLength then [CompanyName] else [])
    + (if c.category == "" then [Category] else [])
    + (if AllContactsNamed(c.contacts) then [] else [ContactName])
  }

  /** Website, booth location, and contact email and phone carry no rule: changing them never changes the errors. */
  lemma OptionalFieldsUnchecked(c: Client, website: Option<string>, booth: Option<string>, emails: seq<Option<string>>, phones: seq<Option<string>>)
    requires |emails| == |c.contacts| && |phones| == |c.contacts|
    ensures
      var cs := seq(|c.contacts|, i requires 0 <= i < |c.contacts| => c.contacts[i].(email := emails[i], phone := phones[i]));
      ClientErrors(c.(website := website, boothLocation := booth, contacts := cs)) == ClientErrors(c)
  {
    var cs := seq(|c.contacts|, i requires 0 <= i < |c.contacts| => c.contacts[i].(email := emails[i], phone := phones[i]));
    assert AllContactsNamed(cs) == AllContactsNamed(c.contacts) by {
      assert forall i :: 0 <= i < |cs| ==> cs[i].name == c.contacts[i].name;
    }
  }
}
