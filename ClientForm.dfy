/** The client form (components/Clients/ClientForm.js): its initial data and the contact-list updaters. */
module ClientForm {
  import opened Wrappers
  import ClientModel

  type Contact = ClientModel.Contact

  datatype ClientFormData = ClientFormData(
    companyName: string, category: string, website: string, boothLocation: string,
    contacts: seq<Contact>, notes: string)

  /** The form for an existing client copies its fields; a missing client or field gives '' and []. */
  function InitialForm(client: Option<ClientModel.Client>): (f: ClientFormData)
    ensures client.None? ==> f == ClientFormData("", "", "", "", [], "")
    ensures client.Some? ==>
      && f.companyName == client.value.companyName && f.category == client.value.category
      && f.website == client.value.website.GetOr("") && f.boothLocation == client.value.boothLocation.GetOr("")
      && f.contacts == client.value.contacts && f.notes == client.value.notes.GetOr("")
  {
    match client
    case None => ClientFormData("", "", "", "", [], "")
    case Some(c) =>
      ClientFormData(c.companyName, c.category, c.website.GetOr(""), c.boothLocation.GetOr(""),
        c.contacts, c.notes.GetOr(""))
  }

  /** The request body a save sends: the form's fields as they stand, each optional one present. */
  function SavedClient(id: string, f: ClientFormData): (c: ClientModel.Client)
    ensures c.id == id && c.companyName == f.companyName && c.category == f.category && c.contacts == f.contacts
    ensures c.website == Some(f.website) && c.boothLocation == Some(f.boothLocation) && c.notes == Some(f.notes)
  {
    ClientModel.Client(id, f.companyName, Some(f.website), Some(f.boothLocation), f.category, f.contacts, Some(f.notes))
  }

  /** The record the server stores and sends back, which the list keeps and the form reopens from. */
  function StoredClient(id: string, f: ClientFormData): (c: ClientModel.Client)
    ensures c.notes.None?
    ensures c.(notes := Some(f.notes)) == SavedClient(id, f)
  {
    ClientModel.StrictCast(SavedClient(id, f))
  }

  /** Reopening a saved client gives back the form that was saved, except that its notes are empty. */
  lemma SavedFormRoundTrip(id: string, f: ClientFormData)
    ensures InitialForm(Some(StoredClient(id, f))) == f.(notes := "")
  {
  }

  /** Notes typed into the form are gone when the client is reopened. */
  lemma NotesLostOnReopen(id: string, f: ClientFormData)
    requires f.notes != ""
    ensures InitialForm(Some(StoredClient(id, f))) != f
    ensures InitialForm(Some(StoredClient(id, f))).notes == ""
  {
  }

  /** With a `notes` path in the schema, reopening a saved client gives back exactly the form that was saved. */
  lemma NotesPathRoundTrip(id: string, f: ClientFormData)
    ensures InitialForm(Some(ClientModel.CastWithNotesPath(SavedClient(id, f)))) == f
  {
  }

  /**
   * Saving an opened client unchanged stores the same record, for any record the store holds:
   * one without notes, whose optional website and booth location are present.
   */
  lemma OpenedClientRoundTrip(c: ClientModel.Client)
    requires c.website.Some? && c.boothLocation.Some? && c.notes.None?
    ensures StoredClient(c.id, InitialForm(Some(c))) == c
  {
  }

  /** An untouched new-client form is refused for its company name and its category, and for nothing else. */
  lemma NewFormErrors(id: string)
    ensures ClientModel.ClientErrors(StoredClient(id, InitialForm(None))) == [ClientModel.CompanyName, ClientModel.Category]
  {
  }

  const BlankContact: Contact := ClientModel.Contact("", Some(""), Some(""))

  /** addContact: one blank contact at the end. */
  function AddContact(f: ClientFormData): (r: ClientFormData)
    ensures |r.contacts| == |f.contacts| + 1
    ensures r.contacts[..|f.contacts|] == f.contacts && r.contacts[|f.contacts|] == BlankContact
    ensures r.(contacts := f.contacts) == f
  {
    f.(contacts := f.contacts + [BlankContact])
  }

  /** `contacts.filter((_, i) => i !== index)` */
  function RemoveAt(cs: seq<Contact>, index: int): (r: seq<Contact>)
    ensures 0 <= index < |cs| ==> |r| == |cs| - 1
    ensures 0 <= index < |cs| ==> forall k :: 0 <= k < |r| ==> r[k] == if k < index then cs[k] else cs[k + 1]
    ensures !(0 <= index < |cs|) ==> r == cs
  {
    if 0 <= index < |cs| then cs[..index] + cs[index + 1..] else cs
  }

  /** removeContact: exactly the contact at `index` is gone; any other index leaves the list as it was. */
  function RemoveContact(f: ClientFormData, index: int): (r: ClientFormData)
    ensures r.contacts == RemoveAt(f.contacts, index)
    ensures r.(contacts := f.contacts) == f
  {
    f.(contacts := RemoveAt(f.contacts, index))
  }

  datatype ContactField = ContactName | ContactEmail | ContactPhone

  function SetField(c: Contact, field: ContactField, value: string): (r: Contact)
    ensures field == ContactName ==> r == c.(name := value)
    ensures field == ContactEmail ==> r == c.(email := Some(value))
    ensures field == ContactPhone ==> r == c.(phone := Some(value))
  {
    match field
    case ContactName => c.(name := value)
    case ContactEmail => c.(email := Some(value))
    case ContactPhone => c.(phone := Some(value))
  }

  /** updateContact: only field `field` of contact `index` changes; the length and every other contact are kept. */
  function UpdateContact(f: ClientFormData, index: int, field: ContactField, value: string): (r: ClientFormData)
    ensures |r.contacts| == |f.contacts|
    ensures forall k :: 0 <= k < |f.contacts| && k != index ==> r.contacts[k] == f.contacts[k]
    ensures 0 <= index < |f.contacts| ==> r.contacts[index] == SetField(f.contacts[index], field, value)
    ensures r.(contacts := f.contacts) == f
  {
    f.(contacts := seq(|f.contacts|, k requires 0 <= k < |f.contacts| =>
      if k == index then SetField(f.contacts[k], field, value) else f.contacts[k]))
  }

  /** Removing the contact just added gives back the original list. */
  lemma {:induction false} RemoveAfterAdd(f: ClientFormData)
    ensures RemoveContact(AddContact(f), |f.contacts|) == f
  {
    var cs := AddContact(f).contacts;
    var r := RemoveAt(cs, |f.contacts|);
    assert |r| == |f.contacts|;
    forall k | 0 <= k < |r| ensures r[k] == f.contacts[k] {
      assert r[k] == cs[k];
    }
    assert r == f.contacts;
  }

  /** Updating a field to the value it already holds changes nothing. */
  lemma UpdateWithSameName(f: ClientFormData, index: nat)
    requires index < |f.contacts|
    ensures UpdateContact(f, index, ContactName, f.contacts[index].name) == f
  {
    assert UpdateContact(f, index, ContactName, f.contacts[index].name).contacts == f.contacts;
  }

  /** Two updates of different fields of one contact commute. */
  lemma UpdatesCommute(f: ClientFormData, index: int, a: ContactField, va: string, b: ContactField, vb: string)
    requires a != b
    ensures UpdateContact(UpdateContact(f, index, a, va), index, b, vb)
         == UpdateContact(UpdateContact(f, index, b, vb), index, a, va)
  {
    var l := UpdateContact(UpdateContact(f, index, a, va), index, b, vb);
    var r := UpdateContact(UpdateContact(f, index, b, vb), index, a, va);
    assert l.contacts == r.contacts;
  }
}
