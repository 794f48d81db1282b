/** The client list (components/Clients/ClientList.js): its search, the save handler and the summary figures. */
module ClientList {
  import opened Wrappers
  import Lists
  import Text
  import ClientModel

  type Client = ClientModel.Client

  predicate ContactMatches(c: ClientModel.Contact, term: string)
  {
    Text.IncludesIgnoringCase(c.name, term) || (c.email.Some? && Text.IncludesIgnoringCase(c.email.value, term))
  }

  /** The search: company name, category, or some contact's name or email contains the term, ignoring case. */
  predicate MatchesSearch(c: Client, term: string)
  {
    || Text.IncludesIgnoringCase(c.companyName, term)
    || Text.IncludesIgnoringCase(c.category, term)
    || exists k :: 0 <= k < |c.contacts| && ContactMatches(c.contacts[k], term)
  }

  /** filteredClients */
  function FilteredClients(clients: seq<Client>, term: string): (r: seq<Client>)
    ensures Lists.Subsequence(r, clients)
    ensures forall c :: c in r ==> c in clients && MatchesSearch(c, term)
    ensures forall c :: c in clients && MatchesSearch(c, term) ==> c in r
  {
    Lists.Filter(clients, c => MatchesSearch(c, term))
  }

  function Id(c: Client): string
  {
    c.id
  }

  /** handleClientUpdated: an edit replaces the clients with the saved id; an add appends the new client. */
  function HandleClientUpdated(clients: seq<Client>, selected: Option<Client>, updated: Client): (r: seq<Client>)
    ensures selected.None? ==> r == clients + [updated]
    ensures selected.Some? ==> |r| == |clients|
    ensures selected.Some? ==> forall i :: 0 <= i < |clients| ==>
      r[i] == if clients[i].id == updated.id then updated else clients[i]
  {
    if selected.Some? then Lists.ReplaceKey(clients, Id, updated.id, updated) else clients + [updated]
  }

  function ContactCount(c: Client): int
  {
    |c.contacts|
  }

  /** `c.boothLocation` is truthy. */
  predicate HasBooth(c: Client)
  {
    c.boothLocation.Some? && c.boothLocation.value != ""
  }

  function Category(c: Client): string
  {
    c.category
  }

  /** Each summary figure, as shown for the search results and for all clients. */
  datatype Stats = Stats(
    shownClients: nat, allClients: nat,
    shownContacts: int, allContacts: int,
    shownBooths: nat, allBooths: nat,
    shownCategories: nat, allCategories: nat)

  /** The summary: every figure for the search results is at most the same figure for all clients. */
  function Summary(clients: seq<Client>, term: string): (s: Stats)
    ensures s.shownClients == |FilteredClients(clients, term)| && s.allClients == |clients|
    ensures s.shownContacts == Lists.Sum(FilteredClients(clients, term), ContactCount)
    ensures s.allContacts == Lists.Sum(clients, ContactCount)
    ensures s.shownBooths == |Lists.Filter(FilteredClients(clients, term), HasBooth)|
    ensures s.allBooths == |Lists.Filter(clients, HasBooth)|
    ensures s.shownCategories == |Lists.Distinct(Lists.MapKey(FilteredClients(clients, term), Category))|
    ensures s.allCategories == |Lists.Distinct(Lists.MapKey(clients, Category))|
    ensures s.shownClients <= s.allClients
    ensures s.shownContacts <= s.allContacts
    ensures s.shownBooths <= s.allBooths
    ensures s.shownCategories <= s.allCategories
  {
    var shown := FilteredClients(clients, term);
    Lists.SumFilterAtMost(clients, c => MatchesSearch(c, term), ContactCount);
    Lists.FilterOfFilterShorter(clients, c => MatchesSearch(c, term), HasBooth);
    CategoriesOfSubset(shown, clients);
    Stats(|shown|, |clients|,
      Lists.Sum(shown, ContactCount), Lists.Sum(clients, ContactCount),
      |Lists.Filter(shown, HasBooth)|, |Lists.Filter(clients, HasBooth)|,
      |Lists.Distinct(Lists.MapKey(shown, Category))|, |Lists.Distinct(Lists.MapKey(clients, Category))|)
  }

  /** Fewer clients never show more distinct categories. */
  lemma CategoriesOfSubset(shown: seq<Client>, clients: seq<Client>)
    requires forall c :: c in shown ==> c in clients
    ensures |Lists.Distinct(Lists.MapKey(shown, Category))| <= |Lists.Distinct(Lists.MapKey(clients, Category))|
  {
    var a := Lists.MapKey(shown, Category);
    var b := Lists.MapKey(clients, Category);
    forall x | x in a ensures x in b {
      var i :| 0 <= i < |a| && a[i] == x;
      assert shown[i] in clients;
      var j :| 0 <= j < |clients| && clients[j] == shown[i];
      assert b[j] == x;
    }
    Lists.DistinctCountMonotone(a, b);
  }
}
